/** internal/client/bundle.go: the dotenv reader and writer. Text is a sequence of code points. */
module Dotenv {
  import opened Wrappers
  import opened Text
  import opened SortedKeys

  const EXPORT := "export "

  /** strings.IndexByte(s, '=') */
  function IndexEq(s: string): (r: Option<nat>)
    ensures r.Some? ==> r.value < |s| && s[r.value] == '=' && '=' !in s[..r.value]
    ensures r.None? ==> '=' !in s
  {
    if s == "" then None
    else if s[0] == '=' then Some(0)
    else
      match IndexEq(s[1..])
      case None => None
      case Some(i) => assert s[..i + 1] == [s[0]] + s[1..][..i]; Some(i + 1)
  }

  /** In matching quotes. */
  predicate Wrapped(v: string) {
    |v| >= 2 && (v[0] == '"' || v[0] == '\'') && v[|v| - 1] == v[0]
  }

  function Unquote(v: string): string {
    if Wrapped(v) then v[1..|v| - 1] else v
  }

  /** The name and value of one line, if it has them. */
  function ParseLine(raw: string): Option<(string, string)> {
    var line := TrimSpace(raw);
    if line == "" || line[0] == '#' then None
    else Split(TrimPrefix(line, EXPORT))
  }

  function Split(line: string): Option<(string, string)> {
    match IndexEq(line)
    case None => None
    case Some(eq) =>
      var k := TrimSpace(line[..eq]);
      if k == "" then None else Some((k, Unquote(TrimSpace(line[eq + 1..]))))
  }

  /** A later line wins. */
  function ParseLines(lines: seq<string>): map<string, string> {
    if lines == [] then map[]
    else
      var m := ParseLines(lines[..|lines| - 1]);
      match ParseLine(lines[|lines| - 1])
      case None => m
      case Some((k, v)) => m[k := v]
  }

  /** The body of parseEnv's loop: the setting a line makes, if any. */
  method ReadLine(raw: string) returns (setting: Option<(string, string)>)
    ensures setting == ParseLine(raw)
  {
    hide TrimSpace, IndexEq;
    var line := TrimSpace(raw);
    if line == "" || line[0] == '#' {
      return None;
    }
    line := TrimPrefix(line, EXPORT);
    var eq := IndexEq(line);
    if eq.None? {
      return None;
    }
    var k := TrimSpace(line[..eq.value]);
    var v := TrimSpace(line[eq.value + 1..]);
    if |v| >= 2 && (v[0] == '"' || v[0] == '\'') && v[|v| - 1] == v[0] {
      v := v[1..|v| - 1];
    }
    return if k != "" then Some((k, v)) else None;
  }

  method ParseEnv(data: string) returns (m: map<string, string>)
    ensures m == ParseLines(Lines(data))
  {
    hide ParseLine;
    m := map[];
    var lines := Lines(data);
    for i := 0 to |lines|
      invariant m == ParseLines(lines[..i])
    {
      assert lines[..i + 1][..i] == lines[..i];
      var setting := ReadLine(lines[i]);
      if setting.Some? {
        m := m[setting.value.0 := setting.value.1];
      }
    }
    assert lines[..|lines|] == lines;
  }

  function LineOf(k: string, v: string): string {
    k + "=" + v
  }

  function RenderKeys(keys: seq<string>, m: map<string, string>): string
    requires forall k :: k in keys ==> k in m
  {
    if keys == [] then "" else LineOf(keys[0], m[keys[0]]) + "\n" + RenderKeys(keys[1..], m)
  }

  ghost function RenderEnv(m: map<string, string>): string {
    var keys := Sorted(m.Keys);
    assert forall k :: k in keys ==> k in Elements(keys);
    RenderKeys(keys, m)
  }

  /** RenderSecrets, format env. */
  method RenderSecrets(m: map<string, string>) returns (b: string)
    ensures b == RenderEnv(m)
  {
    var keys := CollectAndSort(m.Keys);
    assert forall k :: k in keys ==> k in Elements(keys);
    b := "";
    for i := 0 to |keys|
      invariant b + RenderKeys(keys[i..], m) == RenderKeys(keys, m)
    {
      assert keys[i..][1..] == keys[i + 1..];
      var line := LineOf(keys[i], m[keys[i]]) + "\n";
      Assoc(b, line, RenderKeys(keys[i + 1..], m));
      b := b + line;
    }
    assert b + "" == b;
  }

  // ---------------------------------------------------------------- one line

  /** A key a line gives back, if the line is not broken. */
  predicate PlainKey(k: string) {
    && k != "" && Trimmed(k) && '=' !in k
    && k[0] != '#' && !HasPrefix(k, EXPORT)
  }

  predicate PlainValue(v: string) {
    Trimmed(v) && !Wrapped(v)
  }

  predicate SafeKey(k: string) {
    PlainKey(k) && NoNewline(k)
  }

  predicate SafeValue(v: string) {
    PlainValue(v) && NoNewline(v)
  }

  lemma {:induction false} TrimRightAfterEq(k: string, v: string)
    ensures TrimRight(k + "=" + v) == k + "=" + TrimRight(v)
  {
    var s := k + "=" + v;
    if v == "" {
      assert s[|s| - 1] == '=';
    } else if IsSpace(v[|v| - 1]) {
      assert s[..|s| - 1] == k + "=" + v[..|v| - 1];
      TrimRightAfterEq(k, v[..|v| - 1]);
    }
  }

  /** A key without '=' and without white space at its ends leaves its line's key part as it is. */
  lemma TrimmedLine(k: string, v: string)
    requires k != "" && Trimmed(k)
    ensures TrimSpace(LineOf(k, v)) == k + "=" + TrimRight(v)
  {
    assert LineOf(k, v)[0] == k[0];
    TrimRightAfterEq(k, v);
  }

  lemma SplitAt(k: string, w: string)
    requires '=' !in k
    ensures IndexEq(k + "=" + w) == Some(|k|)
    ensures (k + "=" + w)[..|k|] == k && (k + "=" + w)[|k| + 1..] == w
  {
    var s := k + "=" + w;
    assert s[|k|] == '=';
    assert s[..|k|] == k;
  }

  /** A key that is a name on its own: not empty, trimmed, without '='. */
  predicate NameLike(k: string) {
    k != "" && Trimmed(k) && '=' !in k
  }

  lemma NamedLine(k: string, v: string)
    requires NameLike(k)
    ensures ParseLine(LineOf(k, v)) == Some((k, v)) <==> PlainKey(k) && PlainValue(v)
    ensures PlainKey(k) ==> ParseLine(LineOf(k, v)).Some? && ParseLine(LineOf(k, v)).value.0 == k
    ensures !PlainKey(k) && ParseLine(LineOf(k, v)).Some? ==> |ParseLine(LineOf(k, v)).value.0| < |k|
  {
    TrimmedLine(k, v);
    var w := TrimRight(v);
    var line := k + "=" + w;
    assert line[0] == k[0];
    TrimRightShape(v);
    TrimSpaceShape(w);
    TrimSpaceFixes(v);
    if k[0] != '#' {
      if HasPrefix(k, EXPORT) {
        var k' := k[|EXPORT|..];
        assert line[..|EXPORT|] == k[..|EXPORT|] == EXPORT;
        assert TrimPrefix(line, EXPORT) == k' + "=" + w;
        SplitAt(k', w);
        TrimSpaceShape(k');
      } else {
        NoExport(k, w);
        SplitAt(k, w);
        TrimSpaceFixes(k);
      }
    }
  }

  /** The line of a name and value reads back as them exactly when both are plain. */
  lemma LineRoundTrip(k: string, v: string)
    ensures ParseLine(LineOf(k, v)) == Some((k, v)) <==> PlainKey(k) && PlainValue(v)
  {
    if ParseLine(LineOf(k, v)) == Some((k, v)) {
      ParsedName(LineOf(k, v));
    }
    if NameLike(k) {
      NamedLine(k, v);
    }
  }

  /** Whatever a line yields has a name for a key. */
  lemma ParsedName(raw: string)
    requires ParseLine(raw).Some?
    ensures NameLike(ParseLine(raw).value.0)
  {
    var rest := TrimPrefix(TrimSpace(raw), EXPORT);
    var eq := IndexEq(rest).value;
    TrimSpaceShape(rest[..eq]);
    TrimSpaceKeeps(rest[..eq], TrimSpace(rest[..eq]), '=');
  }

  /** The prefix has no '=', so a line starts with it only when its key does. */
  lemma NoExport(k: string, w: string)
    requires !HasPrefix(k, EXPORT)
    ensures TrimPrefix(k + "=" + w, EXPORT) == k + "=" + w
  {
    var line := k + "=" + w;
    assert line[|k|] == '=' && line[..|k|] == k;
  }

  // ---------------------------------------------------------------- what else a line may look like

  /** A leading export is dropped: the line means what it means without. */
  lemma ExportDropped(k: string, v: string)
    requires PlainKey(k) && Trimmed(v)
    ensures ParseLine("export " + LineOf(k, v)) == ParseLine(LineOf(k, v)) == Some((k, Unquote(v)))
  {
    var line := "export " + LineOf(k, v);
    assert line == ("export " + k) + "=" + v;
    assert !IsSpace('e');
    assert ("export " + k)[0] == 'e' && ("export " + k)[|"export " + k| - 1] == k[|k| - 1];
    TrimmedLine("export " + k, v);
    TrimmedLine(k, v);
    TrimSpaceFixes(v);
    TrimRightOfTrimmed(v);
    assert TrimPrefix(line, EXPORT) == LineOf(k, v);
    NoExport(k, v);
    SplitAt(k, v);
    TrimSpaceFixes(k);
  }

  lemma TrimRightOfTrimmed(v: string)
    requires Trimmed(v)
    ensures TrimRight(v) == v
  {
  }

  /** A value in matching quotes, of either kind, loses them, and keeps everything between, blanks included. */
  lemma QuotesDropped(k: string, v: string, q: char)
    requires PlainKey(k) && q in {'"', '\''}
    ensures ParseLine(LineOf(k, [q] + v + [q])) == Some((k, v))
  {
    var w := [q] + v + [q];
    assert w[0] == q && w[|w| - 1] == q && w[1..|w| - 1] == v;
    TrimmedLine(k, w);
    TrimSpaceFixes(w);
    TrimRightOfTrimmed(w);
    NoExport(k, w);
    SplitAt(k, w);
    TrimSpaceFixes(k);
  }

  /** Blank lines, comments and lines without '=' say nothing, nor do those with an empty name. */
  lemma Silent(raw: string)
    requires || TrimSpace(raw) == "" || (TrimSpace(raw) != "" && TrimSpace(raw)[0] == '#') || '=' !in raw
             || (TrimSpace(raw) != "" && TrimSpace(raw)[0] == '=')
    ensures ParseLine(raw) == None
  {
    var line := TrimSpace(raw);
    if line != "" && line[0] != '#' {
      if '=' !in raw {
        TrimSpaceKeeps(raw, line, '=');
      } else {
        assert !(EXPORT <= line);
        assert IndexEq(line) == Some(0);
        assert line[..0] == "";
      }
    }
  }

  // ---------------------------------------------------------------- whole files

  function LinesFor(keys: seq<string>, m: map<string, string>): seq<string>
    requires forall k :: k in keys ==> k in m
  {
    seq(|keys|, i requires 0 <= i < |keys| => LineOf(keys[i], m[keys[i]]))
  }

  lemma LineIsPlain(k: string, v: string)
    requires NoNewline(k) && NoNewline(v)
    ensures NoNewline(LineOf(k, v))
  {
    assert forall c :: c in LineOf(k, v) ==> c in k || c == '=' || c in v;
  }

  lemma {:induction false} LinesOfRender(keys: seq<string>, m: map<string, string>)
    requires forall k :: k in keys ==> k in m && NoNewline(k) && NoNewline(m[k])
    ensures Lines(RenderKeys(keys, m)) == LinesFor(keys, m) + [""]
  {
    if keys != [] {
      LineIsPlain(keys[0], m[keys[0]]);
      LinesCons(LineOf(keys[0], m[keys[0]]), RenderKeys(keys[1..], m));
      LinesOfRender(keys[1..], m);
      assert LinesFor(keys, m) == [LineOf(keys[0], m[keys[0]])] + LinesFor(keys[1..], m);
    }
  }

  lemma LineAdds(lines: seq<string>, line: string, k: string, v: string)
    requires ParseLine(line) == Some((k, v))
    ensures ParseLines(lines + [line]) == ParseLines(lines)[k := v]
  {
    assert (lines + [line])[..|lines|] == lines;
  }

  lemma {:induction false} ParseOfLines(keys: seq<string>, m: map<string, string>)
    requires forall k :: k in keys ==> k in m && SafeKey(k) && SafeValue(m[k])
    ensures ParseLines(LinesFor(keys, m)) == map k | k in keys :: m[k]
  {
    hide ParseLine, PlainKey, PlainValue;
    if keys != [] {
      var front, k := keys[..|keys| - 1], keys[|keys| - 1];
      assert keys == front + [k];
      ParseOfLines(front, m);
      SafeLine(k, m[k]);
      LineAdds(LinesFor(front, m), LineOf(k, m[k]), k, m[k]);
      assert LinesFor(keys, m) == LinesFor(front, m) + [LineOf(k, m[k])];
    }
  }

  lemma SafeLine(k: string, v: string)
    requires SafeKey(k) && SafeValue(v)
    ensures ParseLine(LineOf(k, v)) == Some((k, v))
  {
    LineRoundTrip(k, v);
  }

  lemma EmptyLineLast(lines: seq<string>)
    ensures ParseLines(lines + [""]) == ParseLines(lines)
  {
    assert (lines + [""])[..|lines|] == lines;
  }

  lemma SafeRoundTrip(m: map<string, string>)
    requires forall k :: k in m ==> SafeKey(k) && SafeValue(m[k])
    ensures ParseLines(Lines(RenderEnv(m))) == m
  {
    var keys := Sorted(m.Keys);
    assert forall k :: k in keys <==> k in Elements(keys);
    LinesOfRender(keys, m);
    EmptyLineLast(LinesFor(keys, m));
    ParseOfLines(keys, m);
    assert (map k | k in keys :: m[k]) == m;
  }

  // ---------------------------------------------------------------- no weaker condition will do

  lemma TrimSpaceKeeps(s: string, t: string, c: char)
    requires t == TrimSpace(s) && c !in s
    ensures c !in t
  {
    if c in t { TrimSpaceSubset(s, c); }
  }

  /** A line without a newline yields none. */
  lemma ParsedShape(raw: string)
    requires NoNewline(raw) && ParseLine(raw).Some?
    ensures var (k, v) := ParseLine(raw).value; NameLike(k) && NoNewline(k) && NoNewline(v)
  {
    var line := TrimSpace(raw);
    ParsedName(raw);
    TrimSpaceKeeps(raw, line, '\n');
    var rest := TrimPrefix(line, EXPORT);
    var eq := IndexEq(rest).value;
    TrimSpaceKeeps(rest[..eq], TrimSpace(rest[..eq]), '\n');
    TrimSpaceKeeps(rest[eq + 1..], TrimSpace(rest[eq + 1..]), '\n');
  }

  lemma {:induction false} ParsedAllShaped(lines: seq<string>)
    requires forall l :: l in lines ==> NoNewline(l)
    ensures forall k :: k in ParseLines(lines) ==> NameLike(k) && NoNewline(k) && NoNewline(ParseLines(lines)[k])
  {
    hide ParseLine;
    if lines != [] {
      var last := lines[|lines| - 1];
      ParsedAllShaped(lines[..|lines| - 1]);
      if ParseLine(last).Some? { ParsedShape(last); }
    }
  }

  /** Every setting read comes from one of the lines. */
  lemma {:induction false} ComesFrom(lines: seq<string>, k: string) returns (i: nat)
    requires k in ParseLines(lines)
    ensures i < |lines| && ParseLine(lines[i]) == Some((k, ParseLines(lines)[k]))
  {
    hide ParseLine;
    var n := |lines| - 1;
    var last := ParseLine(lines[n]);
    if last.Some? && last.value.0 == k {
      i := n;
    } else {
      i := ComesFrom(lines[..n], k);
    }
  }

  /** The settings are read back, and no name or value breaks a line. */
  ghost predicate ReadBack(keys: seq<string>, m: map<string, string>) {
    && (forall k :: k in keys <==> k in m)
    && ParseLines(LinesFor(keys, m)) == m
    && forall k :: k in m ==> NameLike(k)
  }

  lemma OwnLine(keys: seq<string>, m: map<string, string>, k: string) returns (from: string)
    requires ReadBack(keys, m) && k in m
    ensures from in m && ParseLine(LineOf(from, m[from])) == Some((k, m[k]))
  {
    var i := ComesFrom(LinesFor(keys, m), k);
    from := keys[i];
  }

  /** A key that is not plain would have to come from a longer key that is not plain either; there is no
      longest one, so there is none. */
  lemma {:induction false} NoOddKey(keys: seq<string>, m: map<string, string>, k: string, longest: nat)
    requires ReadBack(keys, m) && k in m && !PlainKey(k)
    requires forall x :: x in m ==> |x| <= longest
    ensures false
    decreases longest - |k|
  {
    hide ParseLine, PlainKey, PlainValue;
    var from := OwnLine(keys, m, k);
    NamedLine(from, m[from]);
    NoOddKey(keys, m, from, longest);
  }

  lemma {:induction false} LongestKey(keys: set<string>) returns (n: nat)
    ensures forall k :: k in keys ==> |k| <= n
  {
    n := 0;
    if keys != {} {
      var k :| k in keys;
      var rest := LongestKey(keys - {k});
      n := if |k| > rest then |k| else rest;
      assert forall x :: x in keys ==> x == k || x in keys - {k};
    }
  }

  lemma ReadBackPlain(keys: seq<string>, m: map<string, string>, k: string)
    requires ReadBack(keys, m) && k in m
    ensures PlainKey(k) && PlainValue(m[k])
  {
    hide ParseLine, PlainKey, PlainValue;
    var longest := LongestKey(m.Keys);
    var from := OwnLine(keys, m, k);
    if !PlainKey(from) { NoOddKey(keys, m, from, longest); }
    NamedLine(from, m[from]);
  }

  /** Writing then reading is the identity on a map exactly when all its keys and values are safe. */
  lemma RoundTrip(m: map<string, string>)
    ensures ParseLines(Lines(RenderEnv(m))) == m <==> forall k :: k in m ==> SafeKey(k) && SafeValue(m[k])
  {
    hide ParseLine, PlainKey, PlainValue;
    var keys := Sorted(m.Keys);
    assert forall k :: k in keys <==> k in Elements(keys);
    if ParseLines(Lines(RenderEnv(m))) == m {
      LinesArePlain(RenderEnv(m));
      ParsedAllShaped(Lines(RenderEnv(m)));
      LinesOfRender(keys, m);
      EmptyLineLast(LinesFor(keys, m));
      forall k | k in m ensures SafeKey(k) && SafeValue(m[k]) { ReadBackPlain(keys, m, k); }
    }
    if forall k :: k in m ==> SafeKey(k) && SafeValue(m[k]) {
      SafeRoundTrip(m);
    }
  }

  /** So a single setting survives exactly when its key and value are safe. */
  lemma SettingRoundTrip(k: string, v: string)
    ensures ParseLines(Lines(RenderEnv(map[k := v]))) == map[k := v] <==> SafeKey(k) && SafeValue(v)
  {
    var m := map[k := v];
    RoundTrip(m);
    assert k in m && m[k] == v;
  }
}
