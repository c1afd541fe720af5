/** String operations the content script applies to `window.location.pathname`:
    `split('/')` followed by `pop()` for the project id, and `includes` for
    recognising a supported page. */
module Paths {

  /** JavaScript's `s.split('/')`: the pieces between the slashes, always at
      least one, with an empty piece wherever a slash starts or ends `s` or two
      slashes meet. Built from the end, one character at a time. */
  function Split(s: string): (parts: seq<string>)
    ensures |parts| >= 1
    ensures forall p :: p in parts ==> '/' !in p
  {
    if s == [] then [[]]
    else
      var init := Split(s[..|s| - 1]);
      var c := s[|s| - 1];
      if c == '/' then init + [[]]
      else
        var last := init[|init| - 1] + [c];
        assert forall p :: p in init[..|init| - 1] + [last] ==> p in init || p == last;
        init[..|init| - 1] + [last]
  }

  /** `parts.join('/')`. */
  function Join(parts: seq<string>): string
    requires |parts| >= 1
  {
    if |parts| == 1 then parts[0]
    else Join(parts[..|parts| - 1]) + "/" + parts[|parts| - 1]
  }

  /** Appending a non-slash character to a text appends it to the last piece. */
  lemma JoinExtendLast(parts: seq<string>, c: char)
    requires |parts| >= 1
    ensures Join(parts[..|parts| - 1] + [parts[|parts| - 1] + [c]]) == Join(parts) + [c]
  {
    var q := parts[..|parts| - 1] + [parts[|parts| - 1] + [c]];
    if |parts| > 1 {
      assert q[..|q| - 1] == parts[..|parts| - 1];
    }
  }

  /** Joining the pieces with '/' gives back the text: `split` loses nothing. */
  lemma {:induction false} JoinSplit(s: string)
    ensures Join(Split(s)) == s
  {
    if s != [] {
      var init := s[..|s| - 1];
      var c := s[|s| - 1];
      JoinSplit(init);
      var parts := Split(init);
      if c == '/' {
        assert (parts + [[]])[..|parts|] == parts;
      } else {
        JoinExtendLast(parts, c);
      }
      assert init + [c] == s;
    }
  }

  /** A text without '/' is a single piece. */
  lemma {:induction false} SplitNoSlash(p: string)
    requires '/' !in p
    ensures Split(p) == [p]
  {
    if p != [] {
      var init := p[..|p| - 1];
      assert '/' !in init by {
        forall k | 0 <= k < |init| ensures init[k] != '/' { assert init[k] == p[k]; }
      }
      SplitNoSlash(init);
      assert init + [p[|p| - 1]] == p;
    }
  }

  /** Appending '/' and a slash-free piece appends that piece. */
  lemma {:induction false} SplitAppend(s: string, p: string)
    requires '/' !in p
    ensures Split(s + "/" + p) == Split(s) + [p]
    decreases |p|
  {
    if p == [] {
      assert s + "/" + p == s + "/";
      assert (s + "/")[..|s|] == s;
    } else {
      var init := p[..|p| - 1];
      var c := p[|p| - 1];
      assert '/' !in init by {
        forall k | 0 <= k < |init| ensures init[k] != '/' { assert init[k] == p[k]; }
      }
      SplitAppend(s, init);
      var whole := s + "/" + p;
      assert whole[..|whole| - 1] == s + "/" + init;
      assert whole[|whole| - 1] == c;
      assert init + [c] == p;
    }
  }

  /** Splitting slash-free pieces joined with '/' gives the pieces back. */
  lemma {:induction false} SplitJoin(parts: seq<string>)
    requires |parts| >= 1
    requires forall p :: p in parts ==> '/' !in p
    ensures Split(Join(parts)) == parts
    decreases |parts|
  {
    var n := |parts| - 1;
    if n == 0 {
      SplitNoSlash(parts[0]);
    } else {
      assert parts[n] in parts;
      assert forall p :: p in parts[..n] ==> p in parts;
      SplitJoin(parts[..n]);
      SplitAppend(Join(parts[..n]), parts[n]);
      assert parts[..n] + [parts[n]] == parts;
    }
  }

  /** The last piece, what `pop()` removes and returns. */
  function Last(parts: seq<string>): string
    requires |parts| >= 1
  {
    parts[|parts| - 1]
  }

  /** `pathname.split('/').pop()`, the `projectId` of an Insightly record. */
  function ProjectId(pathname: string): string {
    Last(Split(pathname))
  }

  /** The project id is the text after the last '/' of the path: it holds no
      '/', it ends the path, and it is preceded by a '/' unless it is the
      whole path. */
  lemma {:induction false} ProjectIdSpec(pathname: string)
    ensures '/' !in ProjectId(pathname)
    ensures |ProjectId(pathname)| <= |pathname|
    ensures pathname[|pathname| - |ProjectId(pathname)|..] == ProjectId(pathname)
    ensures |ProjectId(pathname)| < |pathname| ==>
              pathname[|pathname| - |ProjectId(pathname)| - 1] == '/'
  {
    if pathname != [] {
      var init := pathname[..|pathname| - 1];
      var c := pathname[|pathname| - 1];
      ProjectIdSpec(init);
      if c != '/' {
        var r := ProjectId(init);
        assert ProjectId(pathname) == r + [c];
        assert pathname[|pathname| - |r| - 1..] == init[|init| - |r|..] + [c];
      }
    }
  }

  /** A path that ends in '/' has an empty project id. */
  lemma ProjectIdTrailingSlash(pathname: string)
    requires pathname != [] && pathname[|pathname| - 1] == '/'
    ensures ProjectId(pathname) == []
  {
  }

  /** `t` occurs in `s` starting at index `i`. */
  predicate OccursAt(s: string, t: string, i: int) {
    0 <= i <= |s| - |t| && s[i..i + |t|] == t
  }

  /** `s.includes(t)`: a case-sensitive substring test, tried at every
      starting position from the left. */
  function Includes(s: string, t: string): bool
    decreases |s|
  {
    if |t| > |s| then false
    else if s[..|t|] == t then true
    else Includes(s[1..], t)
  }

  /** `Includes` holds exactly when `t` occurs somewhere in `s`. */
  lemma {:induction false} IncludesSpec(s: string, t: string)
    ensures Includes(s, t) <==> exists i :: OccursAt(s, t, i)
    decreases |s|
  {
    if |t| > |s| {
    } else if s[..|t|] == t {
      assert OccursAt(s, t, 0);
    } else {
      IncludesSpec(s[1..], t);
      if Includes(s[1..], t) {
        var i :| OccursAt(s[1..], t, i);
        assert OccursAt(s, t, i + 1);
      }
      assert !OccursAt(s, t, 0);
      forall i | 0 < i && OccursAt(s, t, i) ensures OccursAt(s[1..], t, i - 1) {
        assert s[1..][i - 1..i - 1 + |t|] == s[i..i + |t|];
      }
    }
  }
}
