/** ASCII string operations of Python's `str` that the scripts rely on: `strip`, `rstrip(c)`,
    `lower`, `split(c)`, `split(c, 1)`, `sep.join`, `s * n`, `str(n)` and `in`. */
module Text {
  import opened Wrappers

  /** Python's `str.isspace` restricted to ASCII: tab, line feed, vertical tab, form feed,
      carriage return, the four separators 0x1C-0x1F and the space. */
  predicate IsSpace(c: char) {
    c == ' ' || ('\t' <= c <= '\r') || ('\U{1C}' <= c <= '\U{1F}')
  }

  /** Neither end of `s` is whitespace: what `strip` produces. */
  predicate IsStripped(s: string) {
    s == [] || (!IsSpace(s[0]) && !IsSpace(s[|s| - 1]))
  }

  function TrimStart(s: string): (r: string)
    ensures |r| <= |s| && r == s[|s| - |r|..]
    ensures r == [] || !IsSpace(r[0])
    ensures forall i :: 0 <= i < |s| - |r| ==> IsSpace(s[i])
  {
    if s != [] && IsSpace(s[0]) then TrimStart(s[1..]) else s
  }

  function TrimEnd(s: string): (r: string)
    ensures |r| <= |s| && r == s[..|r|]
    ensures r == [] || !IsSpace(r[|r| - 1])
    ensures forall i :: |r| <= i < |s| ==> IsSpace(s[i])
  {
    if s != [] && IsSpace(s[|s| - 1]) then TrimEnd(s[..|s| - 1]) else s
  }

  /** `s.strip()`: the longest infix of `s` whose ends are not whitespace; everything cut off
      is whitespace (`StripShape`), and a string that is already stripped comes back unchanged. */
  function Strip(s: string): (r: string)
    ensures IsStripped(r) && |r| <= |s|
    ensures IsStripped(s) ==> r == s
  {
    TrimEnd(TrimStart(s))
  }

  /** What `strip` removes: `Strip(s)` is the infix of `s` at `a`, everything before it and
      everything after it is whitespace. */
  lemma StripShape(s: string) returns (a: nat)
    ensures a + |Strip(s)| <= |s| && Strip(s) == s[a..a + |Strip(s)|]
    ensures forall i :: 0 <= i < a ==> IsSpace(s[i])
    ensures forall i :: a + |Strip(s)| <= i < |s| ==> IsSpace(s[i])
  {
    var t := TrimStart(s);
    a := |s| - |t|;
    StripInfix(s, t, TrimEnd(t));
  }

  /** Trimming the end of the suffix `t` of `s` leaves an infix of `s` followed only by
      whitespace. */
  lemma StripInfix(s: string, t: string, r: string)
    requires |t| <= |s| && t == s[|s| - |t|..]
    requires |r| <= |t| && r == t[..|r|]
    requires forall i :: |r| <= i < |t| ==> IsSpace(t[i])
    ensures var a := |s| - |t|; r == s[a..a + |r|] && forall i :: a + |r| <= i < |s| ==> IsSpace(s[i])
  {
    var a := |s| - |t|;
    forall i | a + |r| <= i < |s|
      ensures IsSpace(s[i])
    {
      assert s[i] == t[i - a];
    }
  }

  /** `s.rstrip(c)`: every copy of `c` at the end of `s` removed. */
  function RStrip(s: string, c: char): (r: string)
    ensures r <= s
    ensures r == [] || r[|r| - 1] != c
    ensures forall i :: |r| <= i < |s| ==> s[i] == c
  {
    if s != [] && s[|s| - 1] == c then RStrip(s[..|s| - 1], c) else s
  }

  function LowerChar(c: char): char {
    if 'A' <= c <= 'Z' then (c as int + 32) as char else c
  }

  /** `s.lower()` on ASCII. */
  function Lower(s: string): string {
    if s == [] then [] else [LowerChar(s[0])] + Lower(s[1..])
  }

  /** Lower-casing maps each character on its own: upper-case letters to lower-case ones, and
      everything else to itself. */
  lemma {:induction false} LowerChars(s: string)
    ensures |Lower(s)| == |s|
    ensures forall i :: 0 <= i < |s| ==> Lower(s)[i] == LowerChar(s[i])
  {
    if s != [] {
      LowerChars(s[1..]);
    }
  }

  /** The index of the first `c` in `s`, if any. */
  function Find(s: string, c: char): (r: Option<nat>)
    ensures r.Some? ==> r.value < |s| && s[r.value] == c && c !in s[..r.value]
    ensures r.None? <==> c !in s
  {
    if s == [] then None
    else if s[0] == c then Some(0)
    else match Find(s[1..], c)
      case None => None
      case Some(i) => assert s[1..][..i] == s[1..i + 1]; Some(i + 1)
  }

  /** `s.split(c)`: the pieces between the copies of `c`, at least one, none holding `c`. */
  function Split(s: string, c: char): (parts: seq<string>)
    ensures |parts| >= 1
    ensures forall p :: p in parts ==> c !in p
    decreases |s|
  {
    match Find(s, c)
    case None => [s]
    case Some(i) => [s[..i]] + Split(s[i + 1..], c)
  }

  /** `sep.join(parts)`. */
  function Join(sep: string, parts: seq<string>): string {
    if parts == [] then ""
    else if |parts| == 1 then parts[0]
    else parts[0] + sep + Join(sep, parts[1..])
  }

  /** `s * n`. */
  function Repeat(s: string, n: nat): (r: string)
    ensures |r| == n * |s|
  {
    if n == 0 then "" else s + Repeat(s, n - 1)
  }

  lemma {:induction false} RepeatSnoc(s: string, n: nat)
    ensures Repeat(s, n) + s == Repeat(s, n + 1)
  {
    if n == 0 {
      assert Repeat(s, 0) + s == s == s + Repeat(s, 0);
    } else {
      RepeatSnoc(s, n - 1);
      assert Repeat(s, n) + s == s + (Repeat(s, n - 1) + s);
    }
  }

  /** The number of copies of `c` in `s`. */
  function CountChar(s: string, c: char): nat {
    if s == [] then 0 else (if s[0] == c then 1 else 0) + CountChar(s[1..], c)
  }

  function Digit(d: nat): char
    requires d < 10
  {
    "0123456789"[d]
  }

  /** `str(n)` for a natural number: its decimal digits, with no leading zero. */
  function NatToString(n: nat): (r: string)
    ensures |r| >= 1
    ensures forall i :: 0 <= i < |r| ==> '0' <= r[i] <= '9'
    ensures |r| > 1 ==> r[0] != '0'
  {
    if n < 10 then [Digit(n)] else NatToString(n / 10) + [Digit(n % 10)]
  }

  /** `str(i)` for an integer: a minus sign for a negative one, then the digits. */
  function IntToString(i: int): (r: string)
    ensures |r| >= 1 && ('0' <= r[0] <= '9' || r[0] == '-')
    ensures forall k :: 0 <= k < |r| ==> ('0' <= r[k] <= '9' || r[k] == '-')
    ensures (r[0] == '-') <==> i < 0
  {
    if i < 0 then "-" + NatToString(-i) else NatToString(i)
  }

  lemma {:induction false} CountCharConcat(a: string, b: string, c: char)
    ensures CountChar(a + b, c) == CountChar(a, c) + CountChar(b, c)
  {
    if a == [] {
      assert a + b == b;
    } else {
      assert (a + b)[1..] == a[1..] + b;
      CountCharConcat(a[1..], b, c);
    }
  }

  lemma {:induction false} CountCharAbsent(s: string, c: char)
    requires c !in s
    ensures CountChar(s, c) == 0
  {
    if s != [] {
      assert forall x :: x in s[1..] ==> x in s;
      CountCharAbsent(s[1..], c);
    }
  }

  lemma FindAfter(a: string, c: char, b: string)
    requires c !in a
    ensures Find(a + [c] + b, c) == Some(|a|)
  {
    var s := a + [c] + b;
    assert s[|a|] == c;
    assert s[..|a|] == a;
  }

  /** Splitting a join at a separator that occurs in no part gives back the parts. */
  lemma {:induction false} SplitJoin(parts: seq<string>, c: char)
    requires |parts| >= 1
    requires forall p :: p in parts ==> c !in p
    ensures Split(Join([c], parts), c) == parts
  {
    if |parts| == 1 {
      assert c !in parts[0];
    } else {
      var rest := Join([c], parts[1..]);
      assert Join([c], parts) == parts[0] + [c] + rest;
      assert c !in parts[0];
      SplitAfter(parts[0], c, rest);
      assert forall p :: p in parts[1..] ==> p in parts;
      SplitJoin(parts[1..], c);
      assert [parts[0]] + parts[1..] == parts;
    }
  }

  /** Splitting at a first separator after `a`. */
  lemma SplitAfter(a: string, c: char, b: string)
    requires c !in a
    ensures Split(a + [c] + b, c) == [a] + Split(b, c)
  {
    var s := a + [c] + b;
    FindAfter(a, c, b);
    assert s[..|a|] == a;
    assert s[|a| + 1..] == b;
  }

  lemma JoinCons(sep: string, x: string, rest: seq<string>)
    requires rest != []
    ensures Join(sep, [x] + rest) == x + sep + Join(sep, rest)
  {
    assert ([x] + rest)[1..] == rest;
  }

  lemma SplitUnfold(s: string, c: char, i: nat)
    requires Find(s, c) == Some(i)
    ensures Split(s, c) == [s[..i]] + Split(s[i + 1..], c)
  {
  }

  lemma Reassemble(s: string, i: nat)
    requires i < |s|
    ensures s[..i] + [s[i]] + s[i + 1..] == s
  {
  }

  /** Joining the pieces of a split with the separator rebuilds the string. */
  lemma {:induction false} JoinSplit(s: string, c: char)
    ensures Join([c], Split(s, c)) == s
    decreases |s|
  {
    var f := Find(s, c);
    if f.Some? {
      var i := f.value;
      var tail := s[i + 1..];
      SplitUnfold(s, c, i);
      JoinSplit(tail, c);
      JoinCons([c], s[..i], Split(tail, c));
      Reassemble(s, i);
    }
  }

  /** The join of n parts has exactly n - 1 more copies of `c` than its parts when `c` is
      the separator. */
  lemma {:induction false} CountCharJoin(parts: seq<string>, c: char)
    requires |parts| >= 1
    requires forall p :: p in parts ==> c !in p
    ensures CountChar(Join([c], parts), c) == |parts| - 1
  {
    CountCharAbsent(parts[0], c);
    if |parts| > 1 {
      var rest := Join([c], parts[1..]);
      CountCharJoin(parts[1..], c);
      CountCharConcat(parts[0], [c], c);
      CountCharConcat(parts[0] + [c], rest, c);
    }
  }

  /** Splitting at `c` gives one part more than `s` has copies of `c`. */
  lemma {:induction false} SplitCount(s: string, c: char)
    ensures |Split(s, c)| == CountChar(s, c) + 1
    decreases |s|
  {
    match Find(s, c)
    case None =>
      CountCharAbsent(s, c);
    case Some(i) =>
      SplitUnfold(s, c, i);
      SplitCount(s[i + 1..], c);
      CountCharAbsent(s[..i], c);
      Reassemble(s, i);
      CountCharConcat(s[..i], [s[i]], c);
      CountCharConcat(s[..i] + [s[i]], s[i + 1..], c);
  }

  /** A character that occurs in `s` is counted at least once. */
  lemma {:induction false} CountCharIn(s: string, c: char)
    requires c in s
    ensures CountChar(s, c) >= 1
  {
    if s[0] != c {
      assert c in s[1..];
      CountCharIn(s[1..], c);
    }
  }

  /** The join of n parts with `c` holds the n - 1 separators and, at least, the copies of
      `c` in any one part. */
  lemma {:induction false} CountCharJoinAtLeast(parts: seq<string>, c: char, k: nat)
    requires k < |parts|
    ensures CountChar(Join([c], parts), c) >= |parts| - 1 + CountChar(parts[k], c)
  {
    if |parts| > 1 {
      var rest := Join([c], parts[1..]);
      CountCharConcat(parts[0], [c], c);
      CountCharConcat(parts[0] + [c], rest, c);
      if k == 0 {
        CountCharJoinAtLeast(parts[1..], c, 0);
      } else {
        CountCharJoinAtLeast(parts[1..], c, k - 1);
      }
    }
  }

  /** A character found neither in the separator nor in any part is not in the join. */
  lemma {:induction false} JoinAbsent(sep: string, parts: seq<string>, c: char)
    requires c !in sep && forall p :: p in parts ==> c !in p
    ensures c !in Join(sep, parts)
  {
    if |parts| > 1 {
      JoinAbsent(sep, parts[1..], c);
      assert parts[0] in parts;
    } else if |parts| == 1 {
      assert parts[0] in parts;
    }
  }
}
