/**
  The few functions of Go's `strings` and `unicode` packages that the core calls,
  over strings modelled as sequences of characters.
*/
module GoStrings {

  /** `unicode.IsSpace`: the Latin-1 spaces and the other Unicode White_Space code points. */
  predicate IsSpace(c: char) {
    var n := c as int;
    n == 0x09 || n == 0x0A || n == 0x0B || n == 0x0C || n == 0x0D || n == 0x20
    || n == 0x85 || n == 0xA0 || n == 0x1680 || (0x2000 <= n <= 0x200A)
    || n == 0x2028 || n == 0x2029 || n == 0x202F || n == 0x205F || n == 0x3000
  }

  /** The position of the first character of `s` at or after `i` that is not white space, or `|s|`. */
  function SpaceEnd(s: string, i: nat): (k: nat)
    requires i <= |s|
    ensures i <= k <= |s|
    ensures forall j :: i <= j < k ==> IsSpace(s[j])
    ensures k < |s| ==> !IsSpace(s[k])
    decreases |s| - i
  {
    if i < |s| && IsSpace(s[i]) then SpaceEnd(s, i + 1) else i
  }

  /** The end of `s[..j]` once its trailing white space is cut off. */
  function SpaceStart(s: string, j: nat): (k: nat)
    requires j <= |s|
    ensures k <= j
    ensures forall m :: k <= m < j ==> IsSpace(s[m])
    ensures k > 0 ==> !IsSpace(s[k - 1])
    decreases j
  {
    if j > 0 && IsSpace(s[j - 1]) then SpaceStart(s, j - 1) else j
  }

  /** Drops the leading white space of `s`. */
  function TrimLeft(s: string): (r: string)
    ensures |r| <= |s| && r == s[|s| - |r|..]
    ensures forall i :: 0 <= i < |s| - |r| ==> IsSpace(s[i])
    ensures r != [] ==> !IsSpace(r[0])
  {
    s[SpaceEnd(s, 0)..]
  }

  /** Drops the trailing white space of `s`. */
  function TrimRight(s: string): (r: string)
    ensures |r| <= |s| && r == s[..|r|]
    ensures forall i :: |r| <= i < |s| ==> IsSpace(s[i])
    ensures r != [] ==> !IsSpace(r[|r| - 1])
  {
    s[..SpaceStart(s, |s|)]
  }

  /** `r` is `s` with white space only cut off before position `i` and after `i + |r|`. */
  predicate SpaceCut(s: string, r: string, i: nat) {
    i + |r| <= |s| && r == s[i..i + |r|]
    && (forall j :: 0 <= j < i ==> IsSpace(s[j])) && (forall j :: i + |r| <= j < |s| ==> IsSpace(s[j]))
  }

  /**
    `strings.TrimSpace`: the part of `s` between its leading and its trailing white space.
    The result neither starts nor ends with white space, and everything cut off is white space.
  */
  function TrimSpace(s: string): (r: string)
    ensures r == [] || (!IsSpace(r[0]) && !IsSpace(r[|r| - 1]))
    ensures exists i :: SpaceCut(s, r, i)
  {
    TrimsCut(s);
    TrimRight(TrimLeft(s))
  }

  /** What the two trims leave is a cut of white space only. */
  lemma TrimsCut(s: string)
    ensures SpaceCut(s, TrimRight(TrimLeft(s)), |s| - |TrimLeft(s)|)
  {
    var left := TrimLeft(s);
    var t := TrimRight(left);
    var i := |s| - |left|;
    assert t == s[i..i + |t|] by {
      assert t == left[..|t|];
    }
    forall j | i + |t| <= j < |s| ensures IsSpace(s[j]) {
      assert s[j] == left[j - i];
    }
  }

  /** Trimming a second time changes nothing. */
  lemma TrimSpaceIdempotent(s: string)
    ensures TrimSpace(TrimSpace(s)) == TrimSpace(s)
  {
    var t := TrimSpace(s);
    assert t == [] || !IsSpace(t[0]);
    assert TrimLeft(t) == t;
    assert TrimRight(t) == t;
  }

  /** `strings.Join`: the parts with `sep` between neighbours. */
  function Join(parts: seq<string>, sep: string): (r: string)
    decreases |parts|
  {
    if |parts| == 0 then ""
    else if |parts| == 1 then parts[0]
    else parts[0] + sep + Join(parts[1..], sep)
  }

  /** The position of the first `c` in `s`. */
  function IndexOf(s: string, c: char): (i: nat)
    requires c in s
    ensures i < |s| && s[i] == c && c !in s[..i]
  {
    if s[0] == c then 0 else 1 + IndexOf(s[1..], c)
  }

  /**
    `strings.Split(s, sep)` for a one-character separator: the pieces between the
    separators, at least one of them (`""` splits into `[""]`); joining them back gives `s`.
  */
  function Split(s: string, sep: char): (parts: seq<string>)
    ensures |parts| >= 1
    ensures forall i :: 0 <= i < |parts| ==> sep !in parts[i]
    ensures Join(parts, [sep]) == s
    decreases |s|
  {
    if sep !in s then [s]
    else
      var i := IndexOf(s, sep);
      assert s == s[..i] + [sep] + s[i + 1..];
      [s[..i]] + Split(s[i + 1..], sep)
  }

  /** Splitting a joined list of separator-free pieces gives the pieces back. */
  lemma {:induction false} SplitJoin(parts: seq<string>, sep: char)
    requires |parts| >= 1
    requires forall i :: 0 <= i < |parts| ==> sep !in parts[i]
    ensures Split(Join(parts, [sep]), sep) == parts
    decreases |parts|
  {
    if |parts| > 1 {
      var rest := Join(parts[1..], [sep]);
      assert Split(Join(parts, [sep]), sep) == [parts[0]] + Split(rest, sep) by {
        var s := parts[0] + [sep] + rest;
        assert Join(parts, [sep]) == s;
        IndexOfAfter(parts[0], sep, rest);
        var i := IndexOf(s, sep);
        assert s[..i] == parts[0];
        assert s[i + 1..] == rest;
      }
      SplitJoin(parts[1..], sep);
      assert parts == [parts[0]] + parts[1..];
    }
  }

  /** In `a + [c] + b`, where `a` holds no `c`, the first `c` is the one after `a`. */
  lemma {:induction false} IndexOfAfter(a: string, c: char, b: string)
    requires c !in a
    ensures c in a + [c] + b && IndexOf(a + [c] + b, c) == |a|
    decreases |a|
  {
    var s := a + [c] + b;
    assert s[|a|] == c;
    if a != [] {
      assert s[1..] == a[1..] + [c] + b;
      IndexOfAfter(a[1..], c, b);
    }
  }

  /**
    `strings.SplitN(s, sep, 2)` for a one-character separator: `[s]` when `sep` does not
    occur, otherwise the text before and the text after the first `sep`.
  */
  function SplitN2(s: string, sep: char): (parts: seq<string>)
    ensures |parts| == (if sep in s then 2 else 1)
    ensures sep !in parts[0]
    ensures Join(parts, [sep]) == s
  {
    if sep !in s then [s]
    else
      var i := IndexOf(s, sep);
      assert s == s[..i] + [sep] + s[i + 1..];
      [s[..i], s[i + 1..]]
  }

  /** `sub` occurs in `s` starting at position `i`. */
  predicate OccursAt(s: string, sub: string, i: nat) {
    i + |sub| <= |s| && s[i..i + |sub|] == sub
  }

  /** `strings.Contains`: `sub` occurs somewhere in `s`. */
  predicate Contains(s: string, sub: string) {
    exists i :: 0 <= i <= |s| && OccursAt(s, sub, i)
  }

}
