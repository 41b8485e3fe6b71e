/**
 * The handful of Python `str` operations the plugin relies on, with the
 * meaning Python gives them: `isspace`, `strip()`, `split(sep)`, the first
 * token of `split()`, `sep.join(...)` and the ordering `<` used by `sort`.
 */
module PyStr {
  import opened Wrappers

  /** `c.isspace()`: the characters Python treats as whitespace. */
  predicate IsSpace(c: char) {
    c in {' ', '\t', '\n', '\r', '\U{000B}', '\U{000C}',
          '\U{001C}', '\U{001D}', '\U{001E}', '\U{001F}',
          '\U{0085}', '\U{00A0}', '\U{1680}',
          '\U{2000}', '\U{2001}', '\U{2002}', '\U{2003}', '\U{2004}', '\U{2005}',
          '\U{2006}', '\U{2007}', '\U{2008}', '\U{2009}', '\U{200A}',
          '\U{2028}', '\U{2029}', '\U{202F}', '\U{205F}', '\U{3000}'}
  }

  /** Every character of `s` is whitespace (true of the empty string). */
  predicate AllSpace(s: string) {
    forall i | 0 <= i < |s| :: IsSpace(s[i])
  }

  /** `s.lstrip()` */
  function StripLeft(s: string): (r: string)
    ensures |r| <= |s|
    ensures r != [] ==> !IsSpace(r[0])
  {
    if s != [] && IsSpace(s[0]) then StripLeft(s[1..]) else s
  }

  /** What `lstrip` keeps is a suffix of `s`. */
  lemma {:induction false} StripLeftIsSuffix(s: string)
    ensures StripLeft(s) == s[|s| - |StripLeft(s)|..]
  {
    if s != [] && IsSpace(s[0]) {
      StripLeftIsSuffix(s[1..]);
      assert s[1..][|s[1..]| - |StripLeft(s)|..] == s[|s| - |StripLeft(s)|..];
    }
  }

  /** What `lstrip()` removes is whitespace. */
  lemma {:induction false} StripLeftRemovesSpace(s: string)
    ensures AllSpace(s[..|s| - |StripLeft(s)|])
  {
    if s != [] && IsSpace(s[0]) {
      StripLeftRemovesSpace(s[1..]);
      var n := |s| - |StripLeft(s)|;
      forall i | 0 <= i < n ensures IsSpace(s[..n][i]) {
        if i > 0 { assert s[..n][i] == s[1..][..n - 1][i - 1]; }
      }
    }
  }

  /** `s.rstrip()` */
  function StripRight(s: string): (r: string)
    ensures |r| <= |s|
    ensures r != [] ==> !IsSpace(r[|r| - 1])
  {
    if s != [] && IsSpace(s[|s| - 1]) then StripRight(s[..|s| - 1]) else s
  }

  /** What `rstrip` keeps is a prefix of `s`. */
  lemma {:induction false} StripRightIsPrefix(s: string)
    ensures StripRight(s) == s[..|StripRight(s)|]
  {
    if s != [] && IsSpace(s[|s| - 1]) {
      StripRightIsPrefix(s[..|s| - 1]);
      assert s[..|s| - 1][..|StripRight(s)|] == s[..|StripRight(s)|];
    }
  }

  /** What `rstrip()` removes is whitespace. */
  lemma {:induction false} StripRightRemovesSpace(s: string)
    ensures AllSpace(s[|StripRight(s)|..])
  {
    if s != [] && IsSpace(s[|s| - 1]) {
      var t := s[..|s| - 1];
      StripRightRemovesSpace(t);
      var n := |StripRight(s)|;
      forall i | n <= i < |s| ensures IsSpace(s[i]) {
        if i < |s| - 1 { assert t[n..][i - n] == s[i]; }
      }
    }
  }

  /** `s.strip()`: `s` without the whitespace at either end. */
  function Strip(s: string): (r: string)
    ensures |r| <= |s|
    ensures r != [] ==> !IsSpace(r[0]) && !IsSpace(r[|r| - 1])
  {
    StripRightIsPrefix(StripLeft(s));
    StripRight(StripLeft(s))
  }

  /**
   * What `strip()` keeps is a slice of `s` with only whitespace around it,
   * and it keeps nothing exactly when `s` is all whitespace.
   */
  lemma StripIsTrim(s: string)
    ensures Strip(s) == [] <==> AllSpace(s)
    ensures exists k :: 0 <= k <= |s| - |Strip(s)| && Strip(s) == s[k..k + |Strip(s)|]
                        && AllSpace(s[..k]) && AllSpace(s[k + |Strip(s)|..])
  {
    var l := StripLeft(s);
    var r := StripRight(l);
    var k := |s| - |l|;
    StripLeftRemovesSpace(s);
    StripRightRemovesSpace(l);
    StripLeftIsSuffix(s);
    StripRightIsPrefix(l);
    assert s[k..k + |r|] == r;
    assert s[k + |r|..] == l[|r|..];
    if r == [] {
      assert l[|r|..] == l;
      assert s == s[..k] + l;
      AllSpaceConcat(s[..k], l);
    } else {
      assert !IsSpace(s[k]);
    }
  }

  lemma AllSpaceConcat(a: string, b: string)
    requires AllSpace(a) && AllSpace(b)
    ensures AllSpace(a + b)
  {
    forall i | 0 <= i < |a + b| ensures IsSpace((a + b)[i]) {
      if i < |a| { assert (a + b)[i] == a[i]; } else { assert (a + b)[i] == b[i - |a|]; }
    }
  }

  /** Stripping twice is stripping once. */
  lemma StripIdempotent(s: string)
    ensures Strip(Strip(s)) == Strip(s)
  {
    var r := Strip(s);
    if r != [] {
      assert StripLeft(r) == r;
      assert StripRight(r) == r;
    }
  }

  /** A string that begins with a non-whitespace character keeps it under `strip()`. */
  lemma StripKeepsFirst(s: string)
    requires s != [] && !IsSpace(s[0])
    ensures Strip(s) != [] && Strip(s)[0] == s[0]
  {
    assert StripLeft(s) == s;
    StripRightKeepsFirst(s);
  }

  lemma {:induction false} StripRightKeepsFirst(s: string)
    requires s != [] && !IsSpace(s[0])
    ensures StripRight(s) != [] && StripRight(s)[0] == s[0]
  {
    if |s| > 1 && IsSpace(s[|s| - 1]) { StripRightKeepsFirst(s[..|s| - 1]); }
  }

  /** `lstrip` of a concatenation: once `a` holds a non-space, `b` is kept whole. */
  lemma {:induction false} StripLeftConcat(a: string, b: string)
    ensures StripLeft(a + b) == if StripLeft(a) == [] then StripLeft(b) else StripLeft(a) + b
  {
    if a == [] {
      assert a + b == b;
    } else if IsSpace(a[0]) {
      StripLeftConcat(a[1..], b);
      assert (a + b)[0] == a[0] && (a + b)[1..] == a[1..] + b;
    } else {
      assert (a + b)[0] == a[0];
    }
  }

  /** `lstrip` of whitespace leaves nothing. */
  lemma {:induction false} StripLeftOfSpace(w: string)
    requires AllSpace(w)
    ensures StripLeft(w) == []
  {
    if w != [] {
      assert IsSpace(w[0]);
      assert AllSpace(w[1..]) by {
        forall i | 0 <= i < |w[1..]| ensures IsSpace(w[1..][i]) { assert w[1..][i] == w[i + 1]; }
      }
      StripLeftOfSpace(w[1..]);
    }
  }

  /** Whitespace appended to `a` is removed again by `rstrip`. */
  lemma {:induction false} StripRightSpace(a: string, w: string)
    requires AllSpace(w)
    ensures StripRight(a + w) == StripRight(a)
  {
    if w == [] {
      assert a + w == a;
    } else {
      var init := w[..|w| - 1];
      assert (a + w)[|a + w| - 1] == w[|w| - 1];
      assert (a + w)[..|a + w| - 1] == a + init;
      assert AllSpace(init) by {
        forall i | 0 <= i < |init| ensures IsSpace(init[i]) { assert init[i] == w[i]; }
      }
      StripRightSpace(a, init);
    }
  }

  /** Trailing whitespace never changes what `strip()` keeps. */
  lemma StripTrailingSpace(a: string, w: string)
    requires AllSpace(w)
    ensures Strip(a + w) == Strip(a)
  {
    StripLeftConcat(a, w);
    if StripLeft(a) == [] {
      StripLeftOfSpace(w);
    } else {
      StripRightSpace(StripLeft(a), w);
    }
  }

  /** `s` holds no character of `seps`. */
  predicate NoneOf(s: string, seps: set<char>) {
    forall i | 0 <= i < |s| :: s[i] !in seps
  }

  /**
   * Cuts `s` at every character of `seps`: the pieces between separators, in
   * order, empty pieces included; there is always at least one piece.
   */
  function SplitAny(s: string, seps: set<char>): (parts: seq<string>)
    ensures |parts| >= 1
  {
    if s == [] then [""]
    else if s[0] in seps then [""] + SplitAny(s[1..], seps)
    else
      var rest := SplitAny(s[1..], seps);
      [[s[0]] + rest[0]] + rest[1..]
  }

  /** No piece of a split holds a separator. */
  lemma {:induction false} SplitAnyPieces(s: string, seps: set<char>)
    ensures forall i | 0 <= i < |SplitAny(s, seps)| :: NoneOf(SplitAny(s, seps)[i], seps)
  {
    if s != [] {
      SplitAnyPieces(s[1..], seps);
      var rest := SplitAny(s[1..], seps);
      if s[0] !in seps {
        var head := [s[0]] + rest[0];
        assert NoneOf(head, seps) by {
          forall i | 0 <= i < |head| ensures head[i] !in seps {
            if i > 0 { assert head[i] == rest[0][i - 1]; }
          }
        }
        var parts := SplitAny(s, seps);
        forall i | 0 <= i < |parts| ensures NoneOf(parts[i], seps) {
          if i > 0 { assert parts[i] == rest[i]; }
        }
      } else {
        var parts := SplitAny(s, seps);
        forall i | 0 <= i < |parts| ensures NoneOf(parts[i], seps) {
          if i > 0 { assert parts[i] == rest[i - 1]; }
        }
      }
    }
  }

  /** `s.split(sep)` for a one-character separator. */
  function Split(s: string, sep: char): (parts: seq<string>)
    ensures |parts| >= 1
  {
    SplitAny(s, {sep})
  }

  /** The pieces of `s.split(sep)` hold no `sep`, and joining them gives `s` back. */
  lemma SplitPieces(s: string, sep: char)
    ensures forall i | 0 <= i < |Split(s, sep)| :: sep !in Split(s, sep)[i]
    ensures Join(Split(s, sep), sep) == s
  {
    var parts := Split(s, sep);
    SplitAnyPieces(s, {sep});
    forall i | 0 <= i < |parts| ensures sep !in parts[i] {
      assert NoneOf(parts[i], {sep});
    }
    JoinSplit(s, sep);
  }

  /** `sep.join(parts)` for a one-character separator. */
  function Join(parts: seq<string>, sep: char): string
    requires |parts| >= 1
  {
    if |parts| == 1 then parts[0] else parts[0] + [sep] + Join(parts[1..], sep)
  }

  /** Joining the pieces of a split gives back the string. */
  lemma {:induction false} JoinSplit(s: string, sep: char)
    ensures Join(Split(s, sep), sep) == s
  {
    JoinSplitAny(s, sep);
  }

  lemma {:induction false} JoinSplitAny(s: string, sep: char)
    ensures Join(SplitAny(s, {sep}), sep) == s
  {
    if s == [] {
    } else if s[0] == sep {
      JoinSplitAny(s[1..], sep);
      assert SplitAny(s, {sep})[1..] == SplitAny(s[1..], {sep});
    } else {
      JoinSplitAny(s[1..], sep);
      var rest := SplitAny(s[1..], {sep});
      if |rest| > 1 {
        assert SplitAny(s, {sep})[1..] == rest[1..];
        assert Join(rest, sep) == rest[0] + [sep] + Join(rest[1..], sep);
      }
    }
  }

  /**
   * Splitting a join gives back the pieces, provided `sep` is one of the
   * separators and no piece holds a separator.
   */
  lemma {:induction false} SplitJoin(parts: seq<string>, sep: char, seps: set<char>)
    requires |parts| >= 1 && sep in seps
    requires forall i | 0 <= i < |parts| :: NoneOf(parts[i], seps)
    ensures SplitAny(Join(parts, sep), seps) == parts
  {
    if |parts| == 1 {
      SplitPiece(parts[0], [], seps);
      assert parts[0] + [] == parts[0];
      assert parts == [parts[0]];
    } else {
      SplitJoin(parts[1..], sep, seps);
      var tail := [sep] + Join(parts[1..], sep);
      SplitPiece(parts[0], tail, seps);
      assert tail[0] == sep && tail[1..] == Join(parts[1..], sep);
      assert SplitAny(tail, seps) == [""] + parts[1..];
      assert Join(parts, sep) == parts[0] + tail;
      assert SplitAny(Join(parts, sep), seps) == [parts[0] + ""] + parts[1..];
      assert parts[0] + "" == parts[0];
      assert parts == [parts[0]] + parts[1..];
    }
  }

  /** A piece free of separators in front of `tail` becomes the head of the first piece of `tail`. */
  lemma {:induction false} SplitPiece(w: string, tail: string, seps: set<char>)
    requires NoneOf(w, seps)
    ensures SplitAny(w + tail, seps) ==
            [w + SplitAny(tail, seps)[0]] + SplitAny(tail, seps)[1..]
  {
    if w != [] {
      SplitPiece(w[1..], tail, seps);
      assert (w + tail)[0] == w[0] && w[0] !in seps;
      assert (w + tail)[1..] == w[1..] + tail;
      assert NoneOf(w[1..], seps) by {
        forall i | 0 <= i < |w[1..]| ensures w[1..][i] !in seps { assert w[1..][i] == w[i + 1]; }
      }
      assert [w[0]] + (w[1..] + SplitAny(tail, seps)[0]) == w + SplitAny(tail, seps)[0];
    } else {
      assert w + tail == tail;
      var t := SplitAny(tail, seps);
      assert t == [t[0]] + t[1..];
      assert w + t[0] == t[0];
    }
  }

  /** The longest prefix of `s` that holds no whitespace. */
  function Word(s: string): (w: string)
    ensures |w| <= |s| && w == s[..|w|] && !(exists i | 0 <= i < |w| :: IsSpace(w[i]))
    ensures |w| == |s| || IsSpace(s[|w|])
  {
    if s == [] || IsSpace(s[0]) then [] else [s[0]] + Word(s[1..])
  }

  /**
   * `s.split()[0]`: the first maximal run of non-whitespace characters, or
   * None when `s` is empty or all whitespace (where Python raises IndexError).
   */
  function FirstToken(s: string): Option<string> {
    var t := StripLeft(s);
    if t == [] then None else Some(Word(t))
  }

  /** There is no first word exactly when `s` is all whitespace. */
  lemma FirstTokenNone(s: string)
    ensures FirstToken(s).None? <==> AllSpace(s)
  {
    var t := StripLeft(s);
    StripLeftRemovesSpace(s);
    StripLeftIsSuffix(s);
    if t == [] {
      assert s[..|s|] == s;
    } else {
      assert s[|s| - |t|] == t[0];
    }
  }

  /**
   * The token is a non-empty run of non-whitespace characters preceded
   * only by whitespace and followed by whitespace or the end of `s`.
   */
  lemma FirstTokenIsFirstWord(s: string)
    requires FirstToken(s).Some?
    ensures var w := FirstToken(s).value;
      exists k :: 0 <= k && k + |w| <= |s|
        && AllSpace(s[..k]) && s[k..k + |w|] == w
        && w != [] && !(exists i | 0 <= i < |w| :: IsSpace(w[i]))
        && (k + |w| == |s| || IsSpace(s[k + |w|]))
  {
    var t := StripLeft(s);
    StripLeftRemovesSpace(s);
    StripLeftIsSuffix(s);
    var w := Word(t);
    var k := |s| - |t|;
    assert s[k..k + |w|] == w;
  }

  /** Python's `a < b` on strings: lexicographic by code point. */
  predicate Less(a: string, b: string) {
    if a == [] then b != []
    else if b == [] then false
    else if a[0] != b[0] then a[0] < b[0]
    else Less(a[1..], b[1..])
  }

  lemma {:induction false} LessIrreflexive(a: string)
    ensures !Less(a, a)
  {
    if a != [] { LessIrreflexive(a[1..]); }
  }

  lemma {:induction false} LessTransitive(a: string, b: string, c: string)
    requires Less(a, b) && Less(b, c)
    ensures Less(a, c)
  {
    if a != [] && b != [] && c != [] && a[0] == b[0] == c[0] {
      LessTransitive(a[1..], b[1..], c[1..]);
    }
  }

  /** Any two different strings are ordered one way or the other. */
  lemma {:induction false} LessTotal(a: string, b: string)
    ensures a == b || Less(a, b) || Less(b, a)
  {
    if a != [] && b != [] && a[0] == b[0] {
      LessTotal(a[1..], b[1..]);
      if a[1..] == b[1..] { assert a == [a[0]] + a[1..] && b == [b[0]] + b[1..]; }
    }
  }

  /** `a <= b` on strings, as `sort` sees it: `b` is not smaller than `a`. */
  predicate LessEq(a: string, b: string) {
    !Less(b, a)
  }

  lemma LessAsymmetric(a: string, b: string)
    requires Less(a, b)
    ensures !Less(b, a)
  {
    if Less(b, a) { LessTransitive(a, b, a); LessIrreflexive(a); }
  }

  lemma LessEqTransitive(a: string, b: string, c: string)
    requires LessEq(a, b) && LessEq(b, c)
    ensures LessEq(a, c)
  {
    LessTotal(a, b);
    if Less(c, a) && Less(a, b) { LessTransitive(c, a, b); }
  }

  /** Two strings each at most the other are equal. */
  lemma LessEqAntisymmetric(a: string, b: string)
    requires LessEq(a, b) && LessEq(b, a)
    ensures a == b
  {
    LessTotal(a, b);
  }

  /**
   * A separator closes the last piece: the pieces of `a` are the first
   * pieces of `a` followed by anything that starts with a separator.
   */
  lemma {:induction false} SplitPrefix(a: string, t: string, seps: set<char>)
    requires t != [] && t[0] in seps
    ensures |SplitAny(a, seps)| <= |SplitAny(a + t, seps)|
    ensures forall i | 0 <= i < |SplitAny(a, seps)| :: SplitAny(a + t, seps)[i] == SplitAny(a, seps)[i]
  {
    if a == [] {
      assert a + t == t;
    } else {
      var s := a + t;
      assert s[1..] == a[1..] + t;
      assert s[0] == a[0];
      SplitPrefix(a[1..], t, seps);
    }
  }

  /**
   * Characters that are no separators, appended to `a`, lengthen its last
   * piece and leave the others alone.
   */
  lemma {:induction false} SplitAppend(a: string, w: string, seps: set<char>)
    requires NoneOf(w, seps)
    ensures |SplitAny(a + w, seps)| == |SplitAny(a, seps)|
    ensures forall i | 0 <= i < |SplitAny(a, seps)| - 1 :: SplitAny(a + w, seps)[i] == SplitAny(a, seps)[i]
    ensures SplitAny(a + w, seps)[|SplitAny(a, seps)| - 1] == SplitAny(a, seps)[|SplitAny(a, seps)| - 1] + w
  {
    if a == [] {
      assert a + w == w && w + [] == w;
      SplitPiece(w, [], seps);
    } else {
      var s := a + w;
      assert s[0] == a[0] && s[1..] == a[1..] + w;
      SplitAppend(a[1..], w, seps);
      if a[0] !in seps {
        var rest, rest' := SplitAny(a[1..], seps), SplitAny(a[1..] + w, seps);
        if |rest| == 1 {
          assert [a[0]] + rest'[0] == [a[0]] + rest[0] + w;
        }
      }
    }
  }
}
