/** `placeAthletes`: for every athlete of a matched task, one retried
    reservation attempt (reserve, then finalise), sorted into `success`
    (with a cancellation link) or `failed` (with its failures), and the
    cell values then written back to the sheet. The remote service is given
    as its replies: `remote(p, k)` is what the calls of attempt `k` for the
    athlete at position `p` return. Each athlete gets a fresh session, so
    replies are indexed by position; the attempts of one athlete share it. */
module Placement {
  import opened Wrappers
  import opened Text
  import opened Records
  import opened RetryRunner
  import opened Seqs

  /** The attempt budget `placeAthletes` passes to `retryThen`. */
  const RESERVE_ATTEMPTS := 1

  const REGION := "EUROPE"

  /** The reply to `reserveOnlineCourse`: the reservation secret, or the text
      of what was thrown (a transport failure, or the `TypeError` of reading
      `reserveOnlineCourse` from a payload without data). */
  datatype ReserveReply = Reserved(secret: string) | ReserveThrew(text: string)

  /** The reply to `finaliseOnlineCourseEventReservation`: success, an
      `errors` list, or the text of what was thrown. */
  datatype FinalizeReply =
    | Finalized(id: string)
    | FinalizeErrors(messages: seq<string>)
    | FinalizeThrew(text: string)

  datatype Replies = Replies(reserve: ReserveReply, finalize: FinalizeReply)

  /** An empty `errors` array is truthy, and `errors[0].message` then throws. */
  const EMPTY_ERRORS_TEXT := "TypeError: Cannot read properties of undefined (reading 'message')"

  /** How `new Error("API Error: " + message)` reads once rendered as text. */
  function ApiErrorText(message: string): string
  {
    "Error: API Error: " + message
  }

  // ---------------------------------------------------------------------
  // The cancellation link

  const CANCEL_BASE := "https://www.timify.com/de-de/cancel-booking/?eventId="

  /** The link returned by a successful attempt. */
  function CancelUrl(eventId: string, secret: string, company: string): string
  {
    CANCEL_BASE + eventId + "&secret=" + secret + "&accountId=" + company + "&region=" + REGION
  }

  function CancelHead(eventId: string): string { CANCEL_BASE + eventId + "&secret=" }

  function CancelTail(company: string): string { "&accountId=" + company + "&region=" + REGION }

  /** `url` has the shape of a cancellation link for this event and account. */
  predicate IsCancelUrl(url: string, eventId: string, company: string)
  {
    var head, tail := CancelHead(eventId), CancelTail(company);
    |head| + |tail| <= |url| && url[..|head|] == head && url[|url| - |tail|..] == tail
  }

  /** The secret carried by a cancellation link: the partner of `CancelUrl`. */
  function SecretOf(url: string, eventId: string, company: string): string
    requires IsCancelUrl(url, eventId, company)
  {
    url[|CancelHead(eventId)|..|url| - |CancelTail(company)|]
  }

  lemma CancelUrlSplit(eventId: string, secret: string, company: string)
    ensures CancelUrl(eventId, secret, company) == CancelHead(eventId) + secret + CancelTail(company)
  {
  }

  /** A link built from a secret has the link shape and gives the secret back. */
  lemma CancelUrlRoundTrip(eventId: string, secret: string, company: string)
    ensures IsCancelUrl(CancelUrl(eventId, secret, company), eventId, company)
    ensures SecretOf(CancelUrl(eventId, secret, company), eventId, company) == secret
  {
    CancelUrlSplit(eventId, secret, company);
    var head, tail := CancelHead(eventId), CancelTail(company);
    var url := head + secret + tail;
    assert url[..|head|] == head;
    assert url[|url| - |tail|..] == tail;
    assert url[|head|..|url| - |tail|] == secret;
  }

  /** Every string of the link shape is the link of the secret it carries. */
  lemma SecretOfRoundTrip(url: string, eventId: string, company: string)
    requires IsCancelUrl(url, eventId, company)
    ensures CancelUrl(eventId, SecretOf(url, eventId, company), company) == url
  {
    var head, tail := CancelHead(eventId), CancelTail(company);
    var secret := SecretOf(url, eventId, company);
    CancelUrlSplit(eventId, secret, company);
    assert url == url[..|head|] + url[|head|..|url| - |tail|] + url[|url| - |tail|..];
  }

  /** Bookings of one event with different secrets get different links. */
  lemma CancelUrlInjective(eventId: string, s1: string, s2: string, company: string)
    requires CancelUrl(eventId, s1, company) == CancelUrl(eventId, s2, company)
    ensures s1 == s2
  {
    CancelUrlRoundTrip(eventId, s1, company);
    CancelUrlRoundTrip(eventId, s2, company);
  }

  // ---------------------------------------------------------------------
  // One attempt and one athlete

  /** The body of the operation `placeAthletes` retries: reserve, read the
      secret, finalise, and return the cancellation link. */
  function Attempt(replies: Replies, eventId: string, company: string): (o: Outcome<string>)
    ensures o.Returned? <==> replies.reserve.Reserved? && replies.finalize.Finalized?
    ensures o.Returned? ==> o.value == CancelUrl(eventId, replies.reserve.secret, company)
    ensures replies.reserve.ReserveThrew? ==> o == Threw(replies.reserve.text)
    ensures replies.reserve.Reserved? && replies.finalize.FinalizeErrors? ==>
      o == Threw(if replies.finalize.messages == [] then EMPTY_ERRORS_TEXT
               else ApiErrorText(replies.finalize.messages[0]))
    ensures replies.reserve.Reserved? && replies.finalize.FinalizeThrew? ==> o == Threw(replies.finalize.text)
  {
    match replies.reserve
    case ReserveThrew(text) => Threw(text)
    case Reserved(secret) =>
      match replies.finalize
      case Finalized(_) => Returned(CancelUrl(eventId, secret, company))
      case FinalizeErrors(messages) =>
        if messages == [] then Threw(EMPTY_ERRORS_TEXT) else Threw(ApiErrorText(messages[0]))
      case FinalizeThrew(text) => Threw(text)
  }

  /** The operation retried for the athlete at `position`: attempt `k` sees
      the replies to that athlete's `k`-th pair of calls. */
  function AttemptOp(remote: (nat, nat) -> Replies, position: nat, eventId: string, company: string)
    : nat -> Outcome<string>
  {
    (k: nat) => Attempt(remote(position, k), eventId, company)
  }

  /** The retried outcome of the athlete at `position`. */
  function AthleteOutcome(remote: (nat, nat) -> Replies, position: nat, eventId: string, company: string)
    : RetryResult<string>
  {
    Retry(RESERVE_ATTEMPTS, AttemptOp(remote, position, eventId, company)).result
  }

  // ---------------------------------------------------------------------
  // The partition

  datatype Placed = Placed(athlete: Athlete, reservation: string)

  datatype Rejected = Rejected(athlete: Athlete, fails: seq<string>)

  datatype Batch = Batch(success: seq<Placed>, failed: seq<Rejected>)

  function PlacedAthletes(s: seq<Placed>): (r: seq<Athlete>)
    ensures |r| == |s| && forall j :: 0 <= j < |s| ==> r[j] == s[j].athlete
  {
    seq(|s|, j requires 0 <= j < |s| => s[j].athlete)
  }

  function RejectedAthletes(s: seq<Rejected>): (r: seq<Athlete>)
    ensures |r| == |s| && forall j :: 0 <= j < |s| ==> r[j] == s[j].athlete
  {
    seq(|s|, j requires 0 <= j < |s| => s[j].athlete)
  }

  /** The two lists `placeAthletes` builds, athlete by athlete in task order. */
  function Partition(athletes: seq<Athlete>, remote: (nat, nat) -> Replies, eventId: string, company: string)
    : Batch
    decreases |athletes|
  {
    if athletes == [] then Batch([], [])
    else
      var p := |athletes| - 1;
      var prev := Partition(athletes[..p], remote, eventId, company);
      match AthleteOutcome(remote, p, eventId, company)
      case Succeeded(url) => Batch(prev.success + [Placed(athletes[p], url)], prev.failed)
      case Exhausted(fails) => Batch(prev.success, prev.failed + [Rejected(athletes[p], fails)])
  }

  /** The loop of `placeAthletes` over `task.athletes`. */
  method PlaceAthletes(company: string, event: Event, task: Task, remote: (nat, nat) -> Replies)
    returns (batch: Batch)
    ensures batch == Partition(task.athletes, remote, event.id, company)
  {
    var success: seq<Placed> := [];
    var failed: seq<Rejected> := [];
    for i := 0 to |task.athletes|
      invariant Batch(success, failed) == Partition(task.athletes[..i], remote, event.id, company)
    {
      var athlete := task.athletes[i];
      var outcome, calls := RetryThen(RESERVE_ATTEMPTS, AttemptOp(remote, i, event.id, company));
      assert task.athletes[..i + 1][..i] == task.athletes[..i];
      match outcome {
        case Succeeded(url) => success := success + [Placed(athlete, url)];
        case Exhausted(fails) => failed := failed + [Rejected(athlete, fails)];
      }
    }
    assert task.athletes[..|task.athletes|] == task.athletes;
    batch := Batch(success, failed);
  }

  lemma PlacedSnoc(s: seq<Placed>, x: Placed)
    ensures PlacedAthletes(s + [x]) == PlacedAthletes(s) + [x.athlete]
  {
  }

  lemma RejectedSnoc(s: seq<Rejected>, x: Rejected)
    ensures RejectedAthletes(s + [x]) == RejectedAthletes(s) + [x.athlete]
  {
  }

  /** How the partition of a list grows by its last athlete. */
  lemma PartitionLast(athletes: seq<Athlete>, remote: (nat, nat) -> Replies, eventId: string, company: string)
    requires athletes != []
    ensures var p := |athletes| - 1;
      var prev := Partition(athletes[..p], remote, eventId, company);
      var b := Partition(athletes, remote, eventId, company);
      && athletes == athletes[..p] + [athletes[p]]
      && ((AthleteOutcome(remote, p, eventId, company).Succeeded?
           && PlacedAthletes(b.success) == PlacedAthletes(prev.success) + [athletes[p]]
           && RejectedAthletes(b.failed) == RejectedAthletes(prev.failed))
       || (AthleteOutcome(remote, p, eventId, company).Exhausted?
           && PlacedAthletes(b.success) == PlacedAthletes(prev.success)
           && RejectedAthletes(b.failed) == RejectedAthletes(prev.failed) + [athletes[p]]))
  {
    var p := |athletes| - 1;
    var prev := Partition(athletes[..p], remote, eventId, company);
    var b := Partition(athletes, remote, eventId, company);
    assert athletes == athletes[..p] + [athletes[p]];
    match AthleteOutcome(remote, p, eventId, company)
    case Succeeded(url) =>
      assert b == Batch(prev.success + [Placed(athletes[p], url)], prev.failed);
      PlacedSnoc(prev.success, Placed(athletes[p], url));
    case Exhausted(fails) =>
      assert b == Batch(prev.success, prev.failed + [Rejected(athletes[p], fails)]);
      RejectedSnoc(prev.failed, Rejected(athletes[p], fails));
  }

  /** Every athlete lands in exactly one of the two lists. */
  lemma {:induction false} PartitionExact(athletes: seq<Athlete>, remote: (nat, nat) -> Replies,
                                          eventId: string, company: string)
    ensures var b := Partition(athletes, remote, eventId, company);
      && |b.success| + |b.failed| == |athletes|
      && multiset(PlacedAthletes(b.success)) + multiset(RejectedAthletes(b.failed)) == multiset(athletes)
    decreases |athletes|
  {
    if athletes != [] {
      PartitionExact(athletes[..|athletes| - 1], remote, eventId, company);
      PartitionLast(athletes, remote, eventId, company);
    }
  }

  /** The two lists together are as long as the task's athlete list. */
  lemma {:induction false} PartitionSizes(athletes: seq<Athlete>, remote: (nat, nat) -> Replies,
                                          eventId: string, company: string)
    ensures |Partition(athletes, remote, eventId, company).success| +
      |Partition(athletes, remote, eventId, company).failed| == |athletes|
    decreases |athletes|
  {
    if athletes != [] {
      PartitionSizes(athletes[..|athletes| - 1], remote, eventId, company);
    }
  }

  /** Each of the two lists keeps the athletes in task order. */
  lemma {:induction false} PartitionOrdered(athletes: seq<Athlete>, remote: (nat, nat) -> Replies,
                                            eventId: string, company: string)
    ensures var b := Partition(athletes, remote, eventId, company);
      Subseq(PlacedAthletes(b.success), athletes) && Subseq(RejectedAthletes(b.failed), athletes)
    decreases |athletes|
  {
    if athletes != [] {
      var p := |athletes| - 1;
      var prev := Partition(athletes[..p], remote, eventId, company);
      PartitionOrdered(athletes[..p], remote, eventId, company);
      PartitionLast(athletes, remote, eventId, company);
      SubseqSnoc(PlacedAthletes(prev.success), athletes[..p], athletes[p]);
      SubseqSnoc(RejectedAthletes(prev.failed), athletes[..p], athletes[p]);
    }
  }

  /** A successful athlete's value is a cancellation link of the event; a
      failed athlete has one error per allowed attempt. */
  lemma AthleteOutcomeShape(remote: (nat, nat) -> Replies, position: nat, eventId: string, company: string)
    ensures var o := AthleteOutcome(remote, position, eventId, company);
      && (o.Succeeded? ==> IsCancelUrl(o.result, eventId, company))
      && (o.Exhausted? ==> |o.fails| == RESERVE_ATTEMPTS)
  {
    var op := AttemptOp(remote, position, eventId, company);
    RetryCallsBounded(RESERVE_ATTEMPTS, op);
    var r := Retry(RESERVE_ATTEMPTS, op);
    if r.result.Succeeded? {
      var k := FirstSuccess(op, 0, RESERVE_ATTEMPTS);
      assert op(k) == Attempt(remote(position, k), eventId, company);
      CancelUrlRoundTrip(eventId, remote(position, k).reserve.secret, company);
    }
  }

  /** Every entry of `s` carries a cancellation link of the event. */
  predicate AllLinked(s: seq<Placed>, eventId: string, company: string)
  {
    forall j :: 0 <= j < |s| ==> IsCancelUrl(s[j].reservation, eventId, company)
  }

  /** Every entry of `s` carries one error per allowed attempt. */
  predicate AllExhausted(s: seq<Rejected>)
  {
    forall j :: 0 <= j < |s| ==> |s[j].fails| == RESERVE_ATTEMPTS
  }

  /** A success carries the cancellation link of the event for the secret of
      its successful attempt; a failure carries one error per allowed attempt. */
  lemma {:induction false} PartitionEntries(athletes: seq<Athlete>, remote: (nat, nat) -> Replies,
                                            eventId: string, company: string)
    ensures AllLinked(Partition(athletes, remote, eventId, company).success, eventId, company)
    ensures AllExhausted(Partition(athletes, remote, eventId, company).failed)
    decreases |athletes|
  {
    if athletes != [] {
      var p := |athletes| - 1;
      var prev := Partition(athletes[..p], remote, eventId, company);
      PartitionEntries(athletes[..p], remote, eventId, company);
      AthleteOutcomeShape(remote, p, eventId, company);
      match AthleteOutcome(remote, p, eventId, company)
      case Succeeded(url) =>
        var s := prev.success + [Placed(athletes[p], url)];
        forall j | 0 <= j < |s| ensures IsCancelUrl(s[j].reservation, eventId, company) {
          if j < |prev.success| { assert s[j] == prev.success[j]; }
        }
      case Exhausted(fails) =>
        var f := prev.failed + [Rejected(athletes[p], fails)];
        forall j | 0 <= j < |f| ensures |f[j].fails| == RESERVE_ATTEMPTS {
          if j < |prev.failed| { assert f[j] == prev.failed[j]; }
        }
    }
  }

  /** The athlete at position `p` sits in the list its own retried outcome
      names, with that outcome's link or failures. */
  predicate SortedByOutcome(athletes: seq<Athlete>, remote: (nat, nat) -> Replies, eventId: string,
                            company: string, b: Batch, p: nat)
    requires p < |athletes|
  {
    match AthleteOutcome(remote, p, eventId, company)
    case Succeeded(url) => Placed(athletes[p], url) in b.success
    case Exhausted(fails) => Rejected(athletes[p], fails) in b.failed
  }

  /** The entry is the athlete at some position with its own successful outcome. */
  predicate PlacedOwn(athletes: seq<Athlete>, remote: (nat, nat) -> Replies, eventId: string,
                      company: string, e: Placed)
  {
    exists p :: 0 <= p < |athletes| && athletes[p] == e.athlete &&
      AthleteOutcome(remote, p, eventId, company) == Succeeded(e.reservation)
  }

  /** The entry is the athlete at some position with its own failed outcome. */
  predicate RejectedOwn(athletes: seq<Athlete>, remote: (nat, nat) -> Replies, eventId: string,
                        company: string, e: Rejected)
  {
    exists p :: 0 <= p < |athletes| && athletes[p] == e.athlete &&
      AthleteOutcome(remote, p, eventId, company) == Exhausted(e.fails)
  }

  /** Each athlete is pushed to `success` with the link of its own retry, or
      to `failed` with the failures of its own retry; and every entry of the
      two lists is some athlete with its own outcome. */
  lemma {:induction false} PartitionByOutcome(athletes: seq<Athlete>, remote: (nat, nat) -> Replies,
                                              eventId: string, company: string)
    ensures forall p :: 0 <= p < |athletes| ==>
      SortedByOutcome(athletes, remote, eventId, company, Partition(athletes, remote, eventId, company), p)
    ensures forall j :: 0 <= j < |Partition(athletes, remote, eventId, company).success| ==>
      PlacedOwn(athletes, remote, eventId, company, Partition(athletes, remote, eventId, company).success[j])
    ensures forall j :: 0 <= j < |Partition(athletes, remote, eventId, company).failed| ==>
      RejectedOwn(athletes, remote, eventId, company, Partition(athletes, remote, eventId, company).failed[j])
    decreases |athletes|
  {
    if athletes != [] {
      var n := |athletes| - 1;
      var init := athletes[..n];
      var prev := Partition(init, remote, eventId, company);
      var b := Partition(athletes, remote, eventId, company);
      PartitionByOutcome(init, remote, eventId, company);
      assert forall p :: 0 <= p < n ==> init[p] == athletes[p];
      var last := AthleteOutcome(remote, n, eventId, company);
      assert b == (match last
        case Succeeded(url) => Batch(prev.success + [Placed(athletes[n], url)], prev.failed)
        case Exhausted(fails) => Batch(prev.success, prev.failed + [Rejected(athletes[n], fails)]));
      forall p | 0 <= p < |athletes|
        ensures SortedByOutcome(athletes, remote, eventId, company, b, p)
      {
        if p < n {
          assert SortedByOutcome(init, remote, eventId, company, prev, p);
        }
      }
      forall j | 0 <= j < |b.success|
        ensures PlacedOwn(athletes, remote, eventId, company, b.success[j])
      {
        if j < |prev.success| {
          assert b.success[j] == prev.success[j];
          assert PlacedOwn(init, remote, eventId, company, prev.success[j]);
          var p :| 0 <= p < n && init[p] == prev.success[j].athlete &&
            AthleteOutcome(remote, p, eventId, company) == Succeeded(prev.success[j].reservation);
          assert athletes[p] == init[p];
        } else {
          assert b.success[j] == Placed(athletes[n], last.result);
        }
      }
      forall j | 0 <= j < |b.failed|
        ensures RejectedOwn(athletes, remote, eventId, company, b.failed[j])
      {
        if j < |prev.failed| {
          assert b.failed[j] == prev.failed[j];
          assert RejectedOwn(init, remote, eventId, company, prev.failed[j]);
          var p :| 0 <= p < n && init[p] == prev.failed[j].athlete &&
            AthleteOutcome(remote, p, eventId, company) == Exhausted(prev.failed[j].fails);
          assert athletes[p] == init[p];
        } else {
          assert b.failed[j] == Rejected(athletes[n], last.fails);
        }
      }
    }
  }

  /** The athlete at `position` is placed exactly when one of its allowed
      attempts got both a secret and a finalised reservation. */
  lemma AthletePlacedIff(remote: (nat, nat) -> Replies, position: nat, eventId: string, company: string)
    ensures AthleteOutcome(remote, position, eventId, company).Succeeded? <==>
      exists k :: 0 <= k < RESERVE_ATTEMPTS &&
        remote(position, k).reserve.Reserved? && remote(position, k).finalize.Finalized?
  {
    var op := AttemptOp(remote, position, eventId, company);
    RetrySucceedsIff(RESERVE_ATTEMPTS, op);
    assert forall k: nat :: op(k) == Attempt(remote(position, k), eventId, company);
  }

  // ---------------------------------------------------------------------
  // Write-back

  /** One `spreadsheets.values.update` call: the A1 range and the value. */
  datatype CellWrite = CellWrite(range: string, value: string)

  /** `${sheetName}!F${index+1}`: column F of the athlete's sheet row (the
      header is row 1). */
  function CellRange(sheetName: string, index: nat): string
  {
    sheetName + "!F" + NatToString(index + 1)
  }

  /** The sheet row a range of the shape `sheetName!F<row>` names: the
      partner of `CellRange`. */
  function CellRow(range: string, sheetName: string): (row: Option<nat>)
  {
    var head := sheetName + "!F";
    if |head| < |range| && range[..|head|] == head && AllDigits(range[|head|..])
    then Some(ParseNat(range[|head|..]))
    else None
  }

  /** The range of an athlete names the row below the athlete's index. */
  lemma CellRangeRoundTrip(sheetName: string, index: nat)
    ensures CellRow(CellRange(sheetName, index), sheetName) == Some(index + 1)
  {
    var head := sheetName + "!F";
    var range := CellRange(sheetName, index);
    assert range[..|head|] == head;
    assert range[|head|..] == NatToString(index + 1);
    ParseNatToString(index + 1);
  }

  /** Athletes with different indices are written to different cells. */
  lemma CellRangeInjective(sheetName: string, i: nat, j: nat)
    requires CellRange(sheetName, i) == CellRange(sheetName, j)
    ensures i == j
  {
    CellRangeRoundTrip(sheetName, i);
    CellRangeRoundTrip(sheetName, j);
  }

  const FAILURE_PREFIX := "Fehler "

  /** `Fehler ${athlete.fails}`: the array of failures renders joined by commas. */
  function FailureValue(fails: seq<string>): string
  {
    FAILURE_PREFIX + Join(fails, ',')
  }

  /** The failures can be read back from the failure value as long as none
      of them contains a comma. */
  lemma FailureValueRoundTrip(fails: seq<string>)
    requires fails != []
    requires forall j :: 0 <= j < |fails| ==> ',' !in fails[j]
    ensures var v := FailureValue(fails);
      |FAILURE_PREFIX| <= |v| && v[..|FAILURE_PREFIX|] == FAILURE_PREFIX
      && Split(v[|FAILURE_PREFIX|..], ',') == fails
  {
    var v := FailureValue(fails);
    assert v[|FAILURE_PREFIX|..] == Join(fails, ',');
    SplitJoin(fails, ',');
  }

  function SuccessWrites(sheetName: string, s: seq<Placed>): seq<CellWrite>
  {
    seq(|s|, j requires 0 <= j < |s| => CellWrite(CellRange(sheetName, s[j].athlete.index), s[j].reservation))
  }

  function FailureWrites(sheetName: string, s: seq<Rejected>): seq<CellWrite>
  {
    seq(|s|, j requires 0 <= j < |s| => CellWrite(CellRange(sheetName, s[j].athlete.index), FailureValue(s[j].fails)))
  }

  /** The `tryWrite` calls of `placeAthletes`: first every success with its
      link, then every failure with its failure value. */
  function WriteBacks(task: Task, batch: Batch): seq<CellWrite>
  {
    SuccessWrites(task.sheetName, batch.success) + FailureWrites(task.sheetName, batch.failed)
  }

  /** The write of a success names the athlete's row and carries its link. */
  lemma SuccessWritesShape(sheetName: string, s: seq<Placed>, j: nat)
    requires j < |s|
    ensures CellRow(SuccessWrites(sheetName, s)[j].range, sheetName) == Some(s[j].athlete.index + 1)
    ensures SuccessWrites(sheetName, s)[j].value == s[j].reservation
  {
    CellRangeRoundTrip(sheetName, s[j].athlete.index);
  }

  /** The write of a failure names the athlete's row and carries `Fehler `
      and the entry's failures. */
  lemma FailureWritesShape(sheetName: string, s: seq<Rejected>, j: nat)
    requires j < |s|
    ensures CellRow(FailureWrites(sheetName, s)[j].range, sheetName) == Some(s[j].athlete.index + 1)
    ensures FailureWrites(sheetName, s)[j].value == FailureValue(s[j].fails)
    ensures FailureWrites(sheetName, s)[j].value[..|FAILURE_PREFIX|] == FAILURE_PREFIX
  {
    CellRangeRoundTrip(sheetName, s[j].athlete.index);
  }

  /** The first writes are those of the successes, each to its row and with its link. */
  lemma WriteBacksSuccess(task: Task, b: Batch, eventId: string, company: string)
    requires AllLinked(b.success, eventId, company)
    ensures forall j :: 0 <= j < |b.success| ==>
      CellRow(WriteBacks(task, b)[j].range, task.sheetName) == Some(b.success[j].athlete.index + 1)
      && WriteBacks(task, b)[j].value == b.success[j].reservation
      && IsCancelUrl(WriteBacks(task, b)[j].value, eventId, company)
  {
    var sw := SuccessWrites(task.sheetName, b.success);
    var w := WriteBacks(task, b);
    assert w == sw + FailureWrites(task.sheetName, b.failed);
    forall j | 0 <= j < |b.success|
      ensures CellRow(w[j].range, task.sheetName) == Some(b.success[j].athlete.index + 1)
      ensures w[j].value == b.success[j].reservation
      ensures IsCancelUrl(w[j].value, eventId, company)
    {
      assert w[j] == sw[j];
      SuccessWritesShape(task.sheetName, b.success, j);
    }
  }

  /** The remaining writes are those of the failures, each to its row and
      carrying `Fehler ` and the entry's failures. */
  lemma WriteBacksFailure(task: Task, b: Batch)
    ensures forall j :: 0 <= j < |b.failed| ==>
      CellRow(WriteBacks(task, b)[|b.success| + j].range, task.sheetName) == Some(b.failed[j].athlete.index + 1)
      && WriteBacks(task, b)[|b.success| + j].value == FailureValue(b.failed[j].fails)
  {
    var sw, fw := SuccessWrites(task.sheetName, b.success), FailureWrites(task.sheetName, b.failed);
    var w := WriteBacks(task, b);
    assert w == sw + fw;
    forall j | 0 <= j < |b.failed|
      ensures CellRow(w[|b.success| + j].range, task.sheetName) == Some(b.failed[j].athlete.index + 1)
      ensures w[|b.success| + j].value == FailureValue(b.failed[j].fails)
    {
      assert w[|b.success| + j] == fw[j];
      FailureWritesShape(task.sheetName, b.failed, j);
    }
  }

  /** Every athlete of the task gets exactly one write, to its own row: the
      writes of the successes come first, then those of the failures, each
      naming the entry's row and carrying its link or `Fehler ` and its failures. */
  lemma WriteBacksCover(company: string, event: Event, task: Task, remote: (nat, nat) -> Replies, b: Batch)
    requires b == Partition(task.athletes, remote, event.id, company)
    ensures |WriteBacks(task, b)| == |task.athletes|
    ensures forall j :: 0 <= j < |b.success| ==>
      CellRow(WriteBacks(task, b)[j].range, task.sheetName) == Some(b.success[j].athlete.index + 1)
      && WriteBacks(task, b)[j].value == b.success[j].reservation
      && IsCancelUrl(WriteBacks(task, b)[j].value, event.id, company)
    ensures forall j :: 0 <= j < |b.failed| ==>
      CellRow(WriteBacks(task, b)[|b.success| + j].range, task.sheetName) == Some(b.failed[j].athlete.index + 1)
      && WriteBacks(task, b)[|b.success| + j].value == FailureValue(b.failed[j].fails)
  {
    PartitionSizes(task.athletes, remote, event.id, company);
    PartitionEntries(task.athletes, remote, event.id, company);
    WriteBacksBatch(task, b, event.id, company);
  }

  /** The write-back of any batch whose successes carry links. */
  lemma WriteBacksBatch(task: Task, b: Batch, eventId: string, company: string)
    requires AllLinked(b.success, eventId, company)
    ensures var w := WriteBacks(task, b);
      && |w| == |b.success| + |b.failed|
      && (forall j :: 0 <= j < |b.success| ==>
            CellRow(w[j].range, task.sheetName) == Some(b.success[j].athlete.index + 1)
            && w[j].value == b.success[j].reservation
            && IsCancelUrl(w[j].value, eventId, company))
      && (forall j :: 0 <= j < |b.failed| ==>
            CellRow(w[|b.success| + j].range, task.sheetName) == Some(b.failed[j].athlete.index + 1)
            && w[|b.success| + j].value == FailureValue(b.failed[j].fails))
  {
    WriteBacksSuccess(task, b, eventId, company);
    WriteBacksFailure(task, b);
  }

  /** The write-back of each athlete: the cell of its own row receives the
      link of its own retry, or `Fehler ` and the failures of its own retry. */
  lemma AthleteWriteBack(company: string, event: Event, task: Task, remote: (nat, nat) -> Replies, p: nat)
    requires p < |task.athletes|
    ensures var w := WriteBacks(task, Partition(task.athletes, remote, event.id, company));
      var range := CellRange(task.sheetName, task.athletes[p].index);
      match AthleteOutcome(remote, p, event.id, company)
      case Succeeded(url) => CellWrite(range, url) in w
      case Exhausted(fails) => CellWrite(range, FailureValue(fails)) in w
  {
    var b := Partition(task.athletes, remote, event.id, company);
    var w := WriteBacks(task, b);
    var sw, fw := SuccessWrites(task.sheetName, b.success), FailureWrites(task.sheetName, b.failed);
    assert w == sw + fw;
    PartitionByOutcome(task.athletes, remote, event.id, company);
    assert SortedByOutcome(task.athletes, remote, event.id, company, b, p);
    match AthleteOutcome(remote, p, event.id, company)
    case Succeeded(url) =>
      var j :| 0 <= j < |b.success| && b.success[j] == Placed(task.athletes[p], url);
      assert w[j] == sw[j];
    case Exhausted(fails) =>
      var j :| 0 <= j < |b.failed| && b.failed[j] == Rejected(task.athletes[p], fails);
      assert w[|sw| + j] == fw[j];
  }
}
