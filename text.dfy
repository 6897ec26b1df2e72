/**
 * The few operations of Rust's `str` that the backend relies on, over `seq<char>`:
 * trimming, prefix tests, substring search, ASCII lower-casing, `lines` and `rsplit`.
 */
module Text {
  import opened Wrappers

  /** Unicode White_Space: exactly the characters `str::trim` strips. */
  predicate IsSpace(c: char) {
    ('\t' <= c <= '\r') || c == ' ' || c == '\U{85}' || c == '\U{A0}' || c == '\U{1680}'
    || ('\U{2000}' <= c <= '\U{200A}') || c == '\U{2028}' || c == '\U{2029}'
    || c == '\U{202F}' || c == '\U{205F}' || c == '\U{3000}'
  }

  predicate AllSpace(s: string) {
    forall i :: 0 <= i < |s| ==> IsSpace(s[i])
  }

  /** `str::trim_start`: drops the leading white space. */
  function TrimStart(s: string): string {
    if s != [] && IsSpace(s[0]) then TrimStart(s[1..]) else s
  }

  /** `str::trim_end`: drops the trailing white space. */
  function TrimEnd(s: string): string {
    if s != [] && IsSpace(s[|s| - 1]) then TrimEnd(s[..|s| - 1]) else s
  }

  /** `str::trim`. */
  function Trim(s: string): (r: string)
    ensures |r| <= |s|
    ensures r != [] ==> !IsSpace(r[0]) && !IsSpace(r[|r| - 1])
  {
    TrimStartSpec(s);
    TrimEndSpec(TrimStart(s));
    TrimEnd(TrimStart(s))
  }

  /** `trim_start` removes a blank prefix and stops at the first character that is not space. */
  lemma {:induction false} TrimStartSpec(s: string)
    ensures var r := TrimStart(s);
      |r| <= |s| && r == s[|s| - |r|..] && (r == [] || !IsSpace(r[0])) && AllSpace(s[..|s| - |r|])
    decreases |s|
  {
    if s != [] && IsSpace(s[0]) {
      TrimStartSpec(s[1..]);
      var r := TrimStart(s);
      assert s[..|s| - |r|] == [s[0]] + s[1..][..|s| - 1 - |r|];
    }
  }

  /** `trim_end` removes a blank suffix and stops at the last character that is not space. */
  lemma {:induction false} TrimEndSpec(s: string)
    ensures var r := TrimEnd(s);
      |r| <= |s| && r == s[..|r|] && (r == [] || !IsSpace(r[|r| - 1])) && AllSpace(s[|r|..])
    decreases |s|
  {
    if s != [] && IsSpace(s[|s| - 1]) {
      TrimEndSpec(s[..|s| - 1]);
      var r := TrimEnd(s);
      assert s[|r|..] == s[..|s| - 1][|r|..] + [s[|s| - 1]];
    }
  }

  /**
   * `trim` keeps a middle part of the string, all that it drops is white space, and what it
   * keeps neither starts nor ends with white space.
   */
  lemma TrimSpec(s: string)
    ensures var r := Trim(s);
      |r| <= |s| && (r == [] || (!IsSpace(r[0]) && !IsSpace(r[|r| - 1])))
      && exists k :: 0 <= k <= |s| - |r| && r == s[k..k + |r|] && AllSpace(s[..k]) && AllSpace(s[k + |r|..])
  {
    var t := TrimStart(s);
    TrimStartSpec(s);
    TrimEndSpec(t);
    var r := TrimEnd(t);
    var k := |s| - |t|;
    assert r == s[k..k + |r|];
    assert s[k + |r|..] == t[|r|..];
    if r != [] {
      assert r[0] == t[0];
    }
  }

  /** A string with no white space at either end is its own trim. */
  lemma TrimNoop(s: string)
    requires s == [] || (!IsSpace(s[0]) && !IsSpace(s[|s| - 1]))
    ensures Trim(s) == s
  {
  }

  /** Trimming twice is trimming once. */
  lemma TrimIdempotent(s: string)
    ensures Trim(Trim(s)) == Trim(s)
  {
    TrimSpec(s);
    TrimNoop(Trim(s));
  }

  /** Trimming gives "" exactly for the blank strings. */
  lemma TrimEmptyIff(s: string)
    ensures Trim(s) == [] <==> AllSpace(s)
  {
    var t := TrimStart(s);
    TrimStartSpec(s);
    TrimEndSpec(t);
    assert t != [] ==> t[0] == s[|s| - |t|];
    if Trim(s) == [] {
      assert s == s[..|s| - |t|] + t;
    }
  }

  /** Trailing white space can only come from the last part of a concatenation that is not blank. */
  lemma {:induction false} TrimEndAppend(a: string, b: string)
    requires !AllSpace(b)
    ensures TrimEnd(a + b) == a + TrimEnd(b)
    decreases |b|
  {
    assert b != [];
    if IsSpace(b[|b| - 1]) {
      var b' := b[..|b| - 1];
      assert (a + b)[..|a + b| - 1] == a + b';
      assert !AllSpace(b') by {
        var i :| 0 <= i < |b| && !IsSpace(b[i]);
        assert i < |b'| && b'[i] == b[i];
      }
      TrimEndAppend(a, b');
    }
  }

  lemma ConcatAssoc<T>(a: seq<T>, b: seq<T>, c: seq<T>)
    ensures a + (b + c) == (a + b) + c
  {
  }

  predicate StartsWith(s: string, p: string) {
    |p| <= |s| && s[..|p|] == p
  }

  predicate EndsWith(s: string, p: string) {
    |p| <= |s| && s[|s| - |p|..] == p
  }

  predicate OccursAt(s: string, t: string, p: nat) {
    p + |t| <= |s| && s[p..p + |t|] == t
  }

  lemma OccursShift(s: string, t: string, p: nat)
    requires s != []
    ensures OccursAt(s[1..], t, p) <==> OccursAt(s, t, p + 1)
  {
    if p + 1 + |t| <= |s| {
      assert s[1..][p..p + |t|] == s[p + 1..p + 1 + |t|];
    }
  }

  lemma OccursConcat(s: string, a: string, b: string, p: nat)
    requires OccursAt(s, a, p) && OccursAt(s, b, p + |a|)
    ensures OccursAt(s, a + b, p)
  {
    assert s[p..p + |a + b|] == s[p..p + |a|] + s[p + |a|..p + |a| + |b|];
  }

  /** `str::find` with a string pattern: the first position at which `t` occurs in `s`. */
  function Find(s: string, t: string): (r: Option<nat>)
    ensures r.Some? ==> r.value + |t| <= |s|
    decreases |s|
  {
    if |s| < |t| then None
    else if s[..|t|] == t then Some(0)
    else
      match Find(s[1..], t)
      case Some(k) => Some(k + 1)
      case None => None
  }

  /** `find` returns an occurrence, and no occurrence comes before it. */
  lemma {:induction false} FindSpec(s: string, t: string)
    ensures var r := Find(s, t);
      && (r.Some? ==> OccursAt(s, t, r.value))
      && (forall p: nat :: p < (if r.Some? then r.value else |s|) ==> !OccursAt(s, t, p))
    decreases |s|
  {
    if |s| >= |t| && s[..|t|] != t {
      FindSpec(s[1..], t);
      var rest := Find(s[1..], t);
      if rest.Some? {
        OccursShift(s, t, rest.value);
      }
      forall p: nat | p < (if rest.Some? then rest.value + 1 else |s|) ensures !OccursAt(s, t, p) {
        if p > 0 {
          OccursShift(s, t, p - 1);
        }
      }
    }
  }

  /** `str::find` with a `char` pattern. */
  function FindChar(s: string, c: char): (r: Option<nat>)
    ensures r.Some? ==> r.value < |s| && s[r.value] == c
  {
    if s == [] then None
    else if s[0] == c then Some(0)
    else
      match FindChar(s[1..], c)
      case Some(k) => Some(k + 1)
      case None => None
  }

  /** `find` gives the first position of `c`, and nothing exactly when `c` does not occur. */
  lemma {:induction false} FindCharSpec(s: string, c: char)
    ensures FindChar(s, c).Some? ==> c !in s[..FindChar(s, c).value]
    ensures FindChar(s, c).None? <==> c !in s
  {
    if s != [] && s[0] != c {
      FindCharSpec(s[1..], c);
      assert s == [s[0]] + s[1..];
      match FindChar(s[1..], c)
      case Some(k) =>
        assert s[..k + 1] == [s[0]] + s[1..][..k];
      case None =>
    }
  }

  /** `str::rfind` with a `char` pattern: the last position of `c`. */
  function RFindChar(s: string, c: char): (r: Option<nat>)
    ensures r.Some? ==> r.value < |s| && s[r.value] == c
  {
    if s == [] then None
    else if s[|s| - 1] == c then Some(|s| - 1)
    else RFindChar(s[..|s| - 1], c)
  }

  /** `rfind` gives the last position of `c`, and nothing exactly when `c` does not occur. */
  lemma {:induction false} RFindCharSpec(s: string, c: char)
    ensures RFindChar(s, c).Some? ==> c !in s[RFindChar(s, c).value + 1..]
    ensures RFindChar(s, c).None? <==> c !in s
  {
    if s != [] && s[|s| - 1] != c {
      var t := s[..|s| - 1];
      RFindCharSpec(t, c);
      assert s == t + [s[|s| - 1]];
      var r := RFindChar(t, c);
      if r.Some? {
        assert s[r.value + 1..] == t[r.value + 1..] + [s[|s| - 1]];
      }
    }
  }

  /** ASCII-only lower-casing of one character. */
  function LowerChar(c: char): char {
    if 'A' <= c <= 'Z' then (c as int + 32) as char else c
  }

  /** `str::to_lowercase`, restricted to ASCII letters. */
  function ToLower(s: string): (r: string)
    ensures |r| == |s|
  {
    seq(|s|, i requires 0 <= i < |s| => LowerChar(s[i]))
  }

  /** Lower-casing twice is lower-casing once, so a lower-cased key looks itself up. */
  lemma ToLowerIdempotent(s: string)
    ensures ToLower(ToLower(s)) == ToLower(s)
  {
  }

  /** One trailing "\r" is dropped from a line that ended in "\n". */
  function StripCr(s: string): string {
    if s != [] && s[|s| - 1] == '\r' then s[..|s| - 1] else s
  }

  /**
   * `str::lines`: the text is cut at each "\n", a "\r" right before it is dropped, and a
   * final "\n" does not open an empty last line.
   */
  function Lines(s: string): (r: seq<string>)
    ensures s == [] ==> r == []
    decreases |s|
  {
    match FindChar(s, '\n')
    case None => if s == [] then [] else [s]
    case Some(i) => [StripCr(s[..i])] + Lines(s[i + 1..])
  }

  /** No line holds a "\n". */
  lemma {:induction false} LinesNoNewline(s: string)
    ensures forall i :: 0 <= i < |Lines(s)| ==> '\n' !in Lines(s)[i]
    decreases |s|
  {
    FindCharSpec(s, '\n');
    match FindChar(s, '\n')
    case None =>
    case Some(i) =>
      LinesNoNewline(s[i + 1..]);
      assert '\n' !in StripCr(s[..i]) by {
        assert StripCr(s[..i]) == s[..i] || StripCr(s[..i]) == s[..i][..i - 1];
      }
  }

  /** A line without "\n" or "\r" followed by "\n" is the first of the lines. */
  lemma LinesCons(a: string, b: string)
    requires '\n' !in a && '\r' !in a
    ensures Lines(a + "\n" + b) == [a] + Lines(b)
  {
    var s := a + "\n" + b;
    assert s[|a|] == '\n';
    assert s[..|a|] == a;
    assert s[|a| + 1..] == b;
    FindCharSpec(s, '\n');
    assert forall k :: 0 <= k < |a| ==> s[k] == a[k];
    assert FindChar(s, '\n') == Some(|a|);
  }

  /** `s.rsplit(c).next()`: the text after the last `c`, or all of `s`. */
  function AfterLast(s: string, c: char): (r: string)
    ensures |r| <= |s|
  {
    match RFindChar(s, c)
    case None => s
    case Some(i) => s[i + 1..]
  }

  /** What follows the last `c` holds no `c` and ends `s`; without a `c` it is all of `s`. */
  lemma AfterLastSpec(s: string, c: char)
    ensures c !in AfterLast(s, c)
    ensures c !in s ==> AfterLast(s, c) == s
    ensures c in s ==> EndsWith(s, [c] + AfterLast(s, c))
  {
    RFindCharSpec(s, c);
    match RFindChar(s, c)
    case None =>
    case Some(i) =>
      assert s[i..] == [c] + s[i + 1..];
  }

  /** `s.rsplit(c).nth(1)`: the segment right before the last `c`, if there is a `c`. */
  function SegmentBeforeLast(s: string, c: char): Option<string> {
    match RFindChar(s, c)
    case None => None
    case Some(i) => Some(AfterLast(s[..i], c))
  }

  /** There is a segment before the last `c` exactly when `c` occurs, and it holds no `c`. */
  lemma SegmentBeforeLastSpec(s: string, c: char)
    ensures SegmentBeforeLast(s, c).None? <==> c !in s
    ensures SegmentBeforeLast(s, c).Some? ==>
      (c !in SegmentBeforeLast(s, c).value && EndsWith(s[..RFindChar(s, c).value], SegmentBeforeLast(s, c).value))
  {
    RFindCharSpec(s, c);
    match RFindChar(s, c)
    case None =>
    case Some(i) =>
      AfterLastSpec(s[..i], c);
  }
}
