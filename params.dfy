/** The `key=value` parameter file shared by the connection test, the document comments update
    and the workspace listing: each line with an `=` is split at its first `=`, both sides are
    stripped, and a later line overwrites an earlier one with the same key. */
module Params {
  import opened Wrappers
  import opened Seqs
  import opened Text
  import opened Dicts

  type ParamMap = Dict<string, string>

  /** Stripping removes whitespace only, so a character that is not whitespace survives it. */
  lemma StripKeeps(s: string, c: char)
    requires c in s && !IsSpace(c)
    ensures c in Strip(s)
  {
    var p :| 0 <= p < |s| && s[p] == c;
    var q := TrimStartKeeps(s, p);
    var r := TrimEndKeeps(TrimStart(s), q);
    assert Strip(s)[r] == c;
  }

  /** A character at `p` that is not whitespace is still there after trimming the start, at `q`. */
  lemma TrimStartKeeps(s: string, p: nat) returns (q: nat)
    requires p < |s| && !IsSpace(s[p])
    ensures q < |TrimStart(s)| && TrimStart(s)[q] == s[p]
  {
    var t := TrimStart(s);
    q := p - (|s| - |t|);
  }

  lemma TrimEndKeeps(s: string, p: nat) returns (q: nat)
    requires p < |s| && !IsSpace(s[p])
    ensures q < |TrimEnd(s)| && TrimEnd(s)[q] == s[p]
  {
    q := p;
  }

  /** One line: `None` when it has no `=`, otherwise the stripped text before the first `=`
      and the stripped text after it. */
  function ParseLine(line: string): Option<(string, string)> {
    if '=' !in line then None
    else
      var s := Strip(line);
      StripKeeps(line, '=');
      var i := Find(s, '=').value;
      Some((Strip(s[..i]), Strip(s[i + 1..])))
  }

  /** A line with an `=` keeps one after stripping and is split at the first one. */
  lemma ParseLineFirst(line: string)
    requires '=' in line
    ensures '=' in Strip(line)
    ensures var s := Strip(line); var i := Find(s, '=').value;
      ParseLine(line) == Some((Strip(s[..i]), Strip(s[i + 1..])))
  {
    StripKeeps(line, '=');
  }

  /** A line is read exactly when it has an `=`; the key and value read are stripped, and the
      key holds no `=`, since the split is at the first one. */
  lemma ParseLineShape(line: string)
    ensures ParseLine(line).None? <==> '=' !in line
    ensures ParseLine(line).Some? ==>
      IsStripped(ParseLine(line).value.0) && IsStripped(ParseLine(line).value.1) && '=' !in ParseLine(line).value.0
  {
    if '=' in line {
      var s := Strip(line);
      StripKeeps(line, '=');
      var i := Find(s, '=').value;
      assert ParseLine(line).value.0 == Strip(s[..i]);
      assert '=' !in Strip(s[..i]) by {
        StripNoNew(s[..i], '=');
      }
    }
  }

  /** Stripping adds no character. */
  lemma StripNoNew(s: string, c: char)
    requires c !in s
    ensures c !in Strip(s)
  {
    TrimStartNoNew(s, c);
    TrimEndNoNew(TrimStart(s), c);
  }

  lemma TrimStartNoNew(s: string, c: char)
    requires c !in s
    ensures c !in TrimStart(s)
  {
    var t := TrimStart(s);
    SliceAbsent(s, |s| - |t|, |s|, c);
    assert t == s[|s| - |t|..|s|];
  }

  lemma TrimEndNoNew(s: string, c: char)
    requires c !in s
    ensures c !in TrimEnd(s)
  {
    var u := TrimEnd(s);
    SliceAbsent(s, 0, |u|, c);
    assert u == s[0..|u|];
  }

  /** A line written as `key=value` from a stripped key without `=` and a stripped value reads
      back as that pair; the value may itself contain `=`. */
  lemma ParseLineWritten(key: string, value: string)
    requires IsStripped(key) && IsStripped(value) && '=' !in key
    ensures ParseLine(key + "=" + value) == Some((key, value))
  {
    WrittenLine(key, value);
    ParseLineAt(key + "=" + value, key, value);
  }

  /** The pieces of `key=value`. */
  lemma WrittenLine(key: string, value: string)
    requires IsStripped(key) && IsStripped(value) && '=' !in key
    ensures var line := key + "=" + value;
      |key| < |line| && line[..|key|] == key && line[|key|] == '=' && line[|key| + 1..] == value && IsStripped(line)
  {
    var line := key + "=" + value;
    assert line[|key|] == '=';
    assert line[..|key|] == key;
    assert line[|key| + 1..] == value;
  }

  lemma ParseLineAt(line: string, key: string, value: string)
    requires IsStripped(line) && |key| < |line| && line[..|key|] == key && line[|key|] == '=' && line[|key| + 1..] == value
    requires IsStripped(key) && IsStripped(value) && '=' !in key
    ensures ParseLine(line) == Some((key, value))
  {
    ParseStrippedLine(line, |key|);
  }

  /** A stripped line whose first `=` is at `i` is split there. */
  lemma ParseStrippedLine(line: string, i: nat)
    requires IsStripped(line) && i < |line| && line[i] == '=' && '=' !in line[..i]
    ensures ParseLine(line) == Some((Strip(line[..i]), Strip(line[i + 1..])))
  {
    assert '=' in line by {
      assert line[i] == '=';
    }
    var s := Strip(line);
    assert s == line;
    FirstIndex(line, '=', i);
    assert Find(s, '=') == Some(i);
    assert ParseLine(line) == Some((Strip(s[..i]), Strip(s[i + 1..])));
  }

  lemma FirstIndex(s: string, c: char, i: nat)
    requires i < |s| && s[i] == c && c !in s[..i]
    ensures Find(s, c) == Some(i)
  {
    var r := Find(s, c);
    assert c in s;
    assert forall j :: 0 <= j < i ==> s[..i][j] == s[j];
    assert forall j :: 0 <= j < r.value ==> s[..r.value][j] == s[j];
  }

  /** What each line contributes: a key and a value, or nothing. */
  function Entries(lines: seq<string>): (es: seq<Option<(string, string)>>)
    ensures |es| == |lines|
  {
    seq(|lines|, i requires 0 <= i < |lines| => ParseLine(lines[i]))
  }

  lemma EntriesSnoc(lines: seq<string>, line: string)
    ensures Entries(lines + [line]) == Entries(lines) + [ParseLine(line)]
  {
    assert forall i :: 0 <= i < |lines| ==> (lines + [line])[i] == lines[i];
  }

  /** The map built from the entries, in order: a new key is appended, a known one is given
      its new value where it stands. */
  function Collect(es: seq<Option<(string, string)>>): ParamMap
    decreases |es|
  {
    if es == [] then []
    else
      var prior := Collect(es[..|es| - 1]);
      match es[|es| - 1]
      case None => prior
      case Some((k, v)) => Put(prior, k, v)
  }

  /** One more entry: nothing changes for a line without `=`, otherwise its key is set. */
  lemma CollectStep(es: seq<Option<(string, string)>>, i: nat)
    requires i < |es|
    ensures es[i].None? ==> Collect(es[..i + 1]) == Collect(es[..i])
    ensures es[i].Some? ==> Collect(es[..i + 1]) == Put(Collect(es[..i]), es[i].value.0, es[i].value.1)
  {
    assert es[..i + 1][..i] == es[..i];
  }

  /** The parameters read from `lines`. */
  function ParseParams(lines: seq<string>): ParamMap {
    Collect(Entries(lines))
  }

  /** Fills the parameter map line by line. */
  method ReadParams(lines: seq<string>) returns (params: ParamMap)
    ensures params == ParseParams(lines)
  {
    ghost var es := Entries(lines);
    params := [];
    for i := 0 to |lines|
      invariant params == Collect(es[..i])
    {
      CollectStep(es, i);
      var line := lines[i];
      assert es[i] == ParseLine(line);
      if '=' in line {
        ParseLineFirst(line);
        var s := Strip(line);
        var eq := Find(s, '=').value;
        var key, value := s[..eq], s[eq + 1..];
        assert es[i] == Some((Strip(key), Strip(value)));
        params := Put(params, Strip(key), Strip(value));
        assert params == Collect(es[..i + 1]);
      } else {
        assert es[i] == None;
      }
    }
    assert es[..|lines|] == es;
  }

  /** The entry sets `k`. */
  predicate SetsKey(e: Option<(string, string)>, k: string) {
    e.Some? && e.value.0 == k
  }

  /** The value of the last entry that sets `k`, if any. */
  function LastValue(es: seq<Option<(string, string)>>, k: string): Option<string>
    decreases |es|
  {
    if es == [] then None
    else if SetsKey(es[|es| - 1], k) then Some(es[|es| - 1].value.1)
    else LastValue(es[..|es| - 1], k)
  }

  /** `params.get(k)`: the value of the last line that sets `k`, and `None` when none does. */
  lemma {:induction false} GetCollect(es: seq<Option<(string, string)>>, k: string)
    ensures Get(Collect(es), k) == LastValue(es, k)
    decreases |es|
  {
    if es != [] {
      var init := es[..|es| - 1];
      GetCollect(init, k);
      var e := es[|es| - 1];
      if e.Some? {
        PutGet(Collect(init), e.value.0, e.value.1, k);
      }
    }
  }

  lemma GetParam(lines: seq<string>, k: string)
    ensures Get(ParseParams(lines), k) == LastValue(Entries(lines), k)
  {
    GetCollect(Entries(lines), k);
  }

  /** No line sets `k` exactly when `k` reads as `None`. */
  lemma {:induction false} LastValueNone(es: seq<Option<(string, string)>>, k: string)
    ensures LastValue(es, k).None? <==> forall i :: 0 <= i < |es| ==> !SetsKey(es[i], k)
    decreases |es|
  {
    if es != [] {
      var init := es[..|es| - 1];
      LastValueNone(init, k);
      assert forall i :: 0 <= i < |init| ==> init[i] == es[i];
    }
  }

  /** Lines without `=` change nothing. */
  lemma IgnoredLine(lines: seq<string>, line: string)
    requires '=' !in line
    ensures ParseParams(lines + [line]) == ParseParams(lines)
  {
    EntriesSnoc(lines, line);
    assert (Entries(lines) + [ParseLine(line)])[..|lines|] == Entries(lines);
  }

  /** A later line overwrites an earlier value for the same key. */
  lemma LaterWins(lines: seq<string>, key: string, value: string, k: string)
    requires IsStripped(key) && IsStripped(value) && '=' !in key
    ensures Get(ParseParams(lines + [key + "=" + value]), k) == if k == key then Some(value) else Get(ParseParams(lines), k)
  {
    var line := key + "=" + value;
    EntriesSnoc(lines, line);
    assert (Entries(lines) + [ParseLine(line)])[..|lines|] == Entries(lines);
    ParseLineWritten(key, value);
    PutGet(ParseParams(lines), key, value, k);
  }

  /** No key occurs twice in the map. */
  lemma {:induction false} CollectValid(es: seq<Option<(string, string)>>)
    ensures Valid(Collect(es))
    decreases |es|
  {
    if es != [] {
      var init := es[..|es| - 1];
      CollectValid(init);
      var e := es[|es| - 1];
      if e.Some? {
        PutValid(Collect(init), e.value.0, e.value.1);
      }
    }
  }
}
