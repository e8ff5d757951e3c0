/** The text extraction of `jsextract`, by which `Fetcher.setup` reads the
    application's version strings out of the booking page's script: it
    looks at the 30 characters from the first occurrence of the key, strips
    the first `key:` in them, and keeps what comes before the first comma.
    The `JSON.parse` of that text is not modelled. */
module Capabilities {
  import opened Text

  /** The width of the window `jsextract` inspects. */
  const WINDOW := 30

  /** A comma occurs at `k`, in `indexOf` terms. */
  lemma CommaAt(s: string, k: nat)
    requires k < |s|
    ensures OccursAt(s, ",", k) <==> s[k] == ','
  {
    if s[k] == ',' {
      assert s[k..k + 1] == [s[k]];
    } else {
      assert s[k..k + 1][0] == s[k];
    }
  }

  /** `jsextract(key, text)` up to the `JSON.parse`: the text between `key:`
      and the next comma within the window. It never holds a comma and is
      shorter than the window; it is empty when the window has no comma
      after the key's strip. */
  function JsExtractText(key: string, text: string): (r: string)
    ensures ',' !in r
    ensures |r| <= WINDOW
  {
    var start := IndexOf(text, key);
    var window := Substring(text, start, start + WINDOW);
    var mid := RemoveFirst(window, key + ":");
    var end := IndexOf(mid, ",");
    var r := Substring(mid, 0, end);
    assert ',' !in r by {
      if end >= 0 {
        assert r == mid[..end];
        forall k | 0 <= k < end ensures r[k] != ',' {
          CommaAt(mid, k);
        }
      }
    }
    r
  }

  /** The window of a key found right after `pre` is the start of what follows. */
  lemma WindowAt(pre: string, key: string, tail: string)
    requires |key| <= |tail| && tail[..|key|] == key
    requires forall j: nat :: j < |pre| ==> !OccursAt(pre + tail, key, j)
    ensures IndexOf(pre + tail, key) == |pre|
    ensures Substring(pre + tail, |pre|, |pre| + WINDOW) == tail[..Clamp(WINDOW, |tail|)]
  {
    var text := pre + tail;
    assert text[|pre|..] == tail;
    assert text[|pre|..|pre| + |key|] == tail[..|key|];
    assert OccursAt(text, key, |pre|);
    assert text[|pre|..Clamp(|pre| + WINDOW, |text|)] == tail[..Clamp(WINDOW, |tail|)];
  }

  /** Removing a pattern the text starts with drops that prefix. */
  lemma StripLeading(w: string, pat: string)
    requires |pat| <= |w| && w[..|pat|] == pat
    ensures RemoveFirst(w, pat) == w[|pat|..]
  {
    assert OccursAt(w, pat, 0);
  }

  /** Text before the first comma is cut out whole. */
  lemma UpToComma(mid: string, value: string)
    requires |value| < |mid| && mid[..|value|] == value && mid[|value|] == ','
    requires ',' !in value
    ensures Substring(mid, 0, IndexOf(mid, ",")) == value
  {
    forall k: nat | k < |value| ensures !OccursAt(mid, ",", k) {
      CommaAt(mid, k);
    }
    CommaAt(mid, |value|);
    assert IndexOf(mid, ",") == |value|;
  }

  /** The steps of `jsextract`, named. */
  lemma ExtractSteps(key: string, text: string, window: string, mid: string)
    requires window == Substring(text, IndexOf(text, key), IndexOf(text, key) + WINDOW)
    requires mid == RemoveFirst(window, key + ":")
    ensures JsExtractText(key, text) == Substring(mid, 0, IndexOf(mid, ","))
  {
  }

  /** The window cut from `key:value,…` starts with `key:`, then the value
      and its comma. */
  lemma WindowLayout(pat: string, value: string, post: string)
    requires |pat| + |value| < WINDOW
    ensures var tail := pat + (value + "," + post);
      var window := tail[..Clamp(WINDOW, |tail|)];
      && |pat| <= |window| && window[..|pat|] == pat
      && |value| < |window[|pat|..]|
      && window[|pat|..][..|value|] == value && window[|pat|..][|value|] == ','
  {
    var body := value + "," + post;
    var tail := pat + body;
    var c := Clamp(WINDOW, |tail|);
    var window := tail[..c];
    assert window[|pat|..] == body[..c - |pat|];
    assert body[..|value|] == value && body[|value|] == ',';
  }

  /** A value written as `key:value,` at the key's first occurrence, short
      enough for its comma to fall inside the window, is extracted whole. */
  lemma ExtractValue(pre: string, key: string, value: string, post: string)
    requires forall j: nat :: j < |pre| ==> !OccursAt(pre + key + ":" + value + "," + post, key, j)
    requires ',' !in value
    requires |key| + 1 + |value| < WINDOW
    ensures JsExtractText(key, pre + key + ":" + value + "," + post) == value
  {
    var text := pre + key + ":" + value + "," + post;
    var pat := key + ":";
    var tail := pat + (value + "," + post);
    assert text == pre + tail;
    assert tail[..|key|] == key;
    WindowAt(pre, key, tail);
    var window := tail[..Clamp(WINDOW, |tail|)];
    WindowLayout(pat, value, post);
    StripLeading(window, pat);
    UpToComma(window[|pat|..], value);
    ExtractSteps(key, text, window, window[|pat|..]);
  }

  /** A window without a comma after the key's strip extracts nothing, which
      `JSON.parse` then rejects. */
  lemma ExtractNoComma(key: string, text: string)
    requires ',' !in RemoveFirst(Substring(text, IndexOf(text, key), IndexOf(text, key) + WINDOW), key + ":")
    ensures JsExtractText(key, text) == ""
  {
    var start := IndexOf(text, key);
    var mid := RemoveFirst(Substring(text, start, start + WINDOW), key + ":");
    forall k: nat | k < |mid| ensures !OccursAt(mid, ",", k) {
      CommaAt(mid, k);
    }
    forall k: nat | k >= |mid| ensures !OccursAt(mid, ",", k) {
    }
  }
}
