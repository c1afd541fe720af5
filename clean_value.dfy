/** The value normaliser `cleanValue` of the content script: strip the leading
    and trailing whitespace of a text and substitute "N/A" for nothing. */
module CleanValue {
  import opened Wrappers

  /** The sentinel for a missing or blank value. */
  const NotAvailable: string := "N/A"

  /** JavaScript's `\s` class: the ECMAScript WhiteSpace and LineTerminator
      code points. */
  predicate IsWs(c: char) {
    || c == '\t' || c == '\n' || c == '\U{000B}' || c == '\U{000C}' || c == '\r'
    || c == ' ' || c == '\U{00A0}' || c == '\U{1680}'
    || ('\U{2000}' <= c <= '\U{200A}')
    || c == '\U{2028}' || c == '\U{2029}' || c == '\U{202F}' || c == '\U{205F}'
    || c == '\U{3000}' || c == '\U{FEFF}'
  }

  /** Every character of `s` at a position in `lo..hi - 1` is whitespace. */
  predicate WsIn(s: string, lo: int, hi: int)
    requires 0 <= lo <= hi <= |s|
  {
    forall k :: lo <= k < hi ==> IsWs(s[k])
  }

  predicate AllWs(s: string) {
    WsIn(s, 0, |s|)
  }

  /** Neither end of `s` is whitespace. */
  predicate Trimmed(s: string) {
    s == [] || (!IsWs(s[0]) && !IsWs(s[|s| - 1]))
  }

  /** The sentinel itself has no whitespace at either end. */
  lemma NotAvailableTrimmed()
    ensures |NotAvailable| == 3 && Trimmed(NotAvailable)
  {
    assert NotAvailable[0] == 'N' && NotAvailable[2] == 'A';
  }

  /** `s` is `s[..i] + m + s[i + |m|..]` with whitespace on both sides of `m`. */
  predicate StripsTo(s: string, i: int, m: string) {
    && 0 <= i <= |s| - |m|
    && s[i..i + |m|] == m
    && WsIn(s, 0, i)
    && WsIn(s, i + |m|, |s|)
  }

  /** Length of the maximal leading whitespace run, the part `^\s+` matches. */
  function LeadingWs(s: string): (n: nat)
    ensures n <= |s|
    ensures WsIn(s, 0, n)
    ensures n < |s| ==> !IsWs(s[n])
  {
    if s != [] && IsWs(s[0]) then
      var m := LeadingWs(s[1..]);
      assert forall k :: 1 <= k < 1 + m ==> s[k] == s[1..][k - 1];
      1 + m
    else 0
  }

  /** Length of the maximal trailing whitespace run, the part `\s+$` matches. */
  function TrailingWs(s: string): (n: nat)
    ensures n <= |s|
    ensures WsIn(s, |s| - n, |s|)
    ensures n < |s| ==> !IsWs(s[|s| - n - 1])
  {
    if s != [] && IsWs(s[|s| - 1]) then
      var init := s[..|s| - 1];
      var m := TrailingWs(init);
      assert forall k :: |init| - m <= k < |init| ==> s[k] == init[k];
      1 + m
    else 0
  }

  /** `s.replace(/^\s+|\s+$/g, '')`: both whitespace runs at the ends removed. */
  function Trim(s: string): string {
    var t := s[LeadingWs(s)..];
    t[..|t| - TrailingWs(t)]
  }

  /** Trimming removes exactly a whitespace prefix and a whitespace suffix,
      leaves everything between them (interior whitespace and newlines
      included) as it was, and leaves no whitespace at either end. */
  lemma TrimSpec(s: string)
    ensures StripsTo(s, LeadingWs(s), Trim(s))
    ensures Trimmed(Trim(s))
  {
    var i := LeadingWs(s);
    var t := s[i..];
    var j := TrailingWs(t);
    var r := Trim(s);
    assert r == t[..|t| - j];
    assert r == s[i..i + |r|];
    forall k | i + |r| <= k < |s|
      ensures IsWs(s[k])
    {
      assert s[k] == t[k - i];
    }
    if r != [] {
      assert r[0] == s[i];
      assert r[|r| - 1] == t[|t| - j - 1];
    }
  }

  /** The maximal leading run is the only whitespace prefix followed by a
      non-whitespace character or the end. */
  lemma {:induction false} LeadingWsUnique(s: string, n: nat)
    requires n <= |s| && WsIn(s, 0, n) && (n < |s| ==> !IsWs(s[n]))
    ensures LeadingWs(s) == n
  {
    if n > 0 {
      assert forall k :: 0 <= k < n - 1 ==> s[1..][k] == s[k + 1];
      LeadingWsUnique(s[1..], n - 1);
    }
  }

  /** Likewise for the maximal trailing run. */
  lemma {:induction false} TrailingWsUnique(s: string, n: nat)
    requires n <= |s| && WsIn(s, |s| - n, |s|) && (n < |s| ==> !IsWs(s[|s| - n - 1]))
    ensures TrailingWs(s) == n
  {
    if n > 0 {
      var init := s[..|s| - 1];
      assert forall k :: |init| - (n - 1) <= k < |init| ==> init[k] == s[k];
      TrailingWsUnique(init, n - 1);
    }
  }

  /** The trimmed text is the only whitespace-free-ended middle: any split of
      `s` into whitespace, a trimmed middle, and whitespace has `Trim(s)` as
      its middle. */
  lemma TrimUnique(s: string, i: int, m: string)
    requires StripsTo(s, i, m) && Trimmed(m)
    ensures m == Trim(s)
  {
    if m == [] {
      LeadingWsUnique(s, |s|);
    } else {
      assert s[i] == m[0];
      LeadingWsUnique(s, i);
      var t := s[i..];
      assert t[|m| - 1] == m[|m| - 1];
      assert forall k :: |m| <= k < |t| ==> t[k] == s[i + k];
      TrailingWsUnique(t, |t| - |m|);
      assert t[..|m|] == m;
    }
  }

  /** `cleanValue(value)`: "N/A" for a falsy value (`None` is `null` or
      `undefined`, `Some("")` the empty string) and for text that trims to
      nothing, the trimmed text otherwise. */
  function Clean(value: Option<string>): (r: string)
    ensures r != []
    ensures Trimmed(r)
    ensures value == None || value == Some([]) ==> r == NotAvailable
  {
    NotAvailableTrimmed();
    match value
    case None => NotAvailable
    case Some(s) =>
      if s == [] then NotAvailable
      else
        TrimSpec(s);
        var t := Trim(s);
        if t == [] then NotAvailable else t
  }

  /** A non-whitespace character survives trimming. */
  lemma TrimNonEmpty(s: string)
    requires LeadingWs(s) < |s|
    ensures Trim(s) != []
  {
    var t := s[LeadingWs(s)..];
    assert t[0] == s[LeadingWs(s)];
  }

  /** A text trims to nothing exactly when it is all whitespace. */
  lemma TrimEmpty(s: string)
    ensures Trim(s) == [] <==> AllWs(s)
  {
    if AllWs(s) {
      LeadingWsUnique(s, |s|);
    } else if LeadingWs(s) < |s| {
      TrimNonEmpty(s);
    }
  }

  /** For a text, the result is "N/A" exactly when the text is blank (or is
      itself "N/A" once trimmed), and otherwise the trimmed text: a
      contiguous piece of the input whose surroundings are whitespace. */
  lemma CleanText(s: string)
    ensures Clean(Some(s)) == NotAvailable <==> AllWs(s) || Trim(s) == NotAvailable
    ensures !AllWs(s) ==> Clean(Some(s)) == Trim(s) && StripsTo(s, LeadingWs(s), Clean(Some(s)))
  {
    TrimSpec(s);
    TrimEmpty(s);
  }

  /** Cleaning a cleaned value changes nothing. */
  lemma CleanIdempotent(value: Option<string>)
    ensures Clean(Some(Clean(value))) == Clean(value)
  {
    var r := Clean(value);
    assert StripsTo(r, 0, r);
    TrimUnique(r, 0, r);
  }
}
