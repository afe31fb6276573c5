/** internal/crypto/crypto.go and v4.go: the header block inside the AEAD payload.
    Three header lines, a blank line, then the plaintext verbatim. The numeric family names the
    project by id, the keyed family by its public key. */
module Envelope {
  import opened Wrappers
  import opened Text

  const ID_PREFIX := "gitseal-project-id:"
  const LEVEL_PREFIX := "gitseal-min-access-level:"
  const NAME_PREFIX := "gitseal-name:"
  const RECIPIENT_PREFIX := "gitseal-recipient:"
  const DEFAULT_LEVEL := 30

  // ---------------------------------------------------------------- writing

  /** The bytes sealEnvelope and sealEnvelopeV4 encrypt: `who` is the discriminator line. */
  function EnvelopeOf(who: string, level: nat, name: string, plaintext: string): string {
    Header(who, level, name) + "\n\n" + plaintext
  }

  function Header(who: string, level: nat, name: string): string {
    who + "\n" + (LEVEL_PREFIX + Dec(level) + "\n" + (NAME_PREFIX + name))
  }

  function NumericLine(projectID: nat): string {
    ID_PREFIX + Dec(projectID)
  }

  function KeyLine(pubkey: string): string {
    RECIPIENT_PREFIX + pubkey
  }

  method SealEnvelope(who: string, level: nat, name: string, plaintext: string) returns (env: string)
    ensures env == EnvelopeOf(who, level, name, plaintext)
    ensures env == who + "\n" + ("gitseal-min-access-level:" + Dec(level) + "\n" + ("gitseal-name:" + name)) + "\n\n" + plaintext
  {
    env := who + "\n";
    env := env + (LEVEL_PREFIX + Dec(level) + "\n");
    env := env + (NAME_PREFIX + name + "\n\n");
    env := env + plaintext;
    assert NAME_PREFIX + name + "\n\n" == (NAME_PREFIX + name) + "\n\n";
    assert env == Header(who, level, name) + "\n\n" + plaintext;
  }

  // ---------------------------------------------------------------- reading

  /** The split of decryptEnvelope: at the first blank line. */
  function Split(env: string): Option<(string, string)> {
    match BlankLine(env)
    case None => None
    case Some(i) => Some((env[..i], env[i + 2..]))
  }

  /** What follows the prefix on the first line that carries it. */
  function FirstWith(lines: seq<string>, prefix: string): Option<string> {
    if lines == [] then None
    else if HasPrefix(lines[0], prefix) then Some(TrimSpace(TrimPrefix(lines[0], prefix)))
    else FirstWith(lines[1..], prefix)
  }

  /** parseLevelLine, on the text after the prefix: a level below Developer is refused. */
  function ParseLevel(text: string): (r: Result<int>)
    ensures r.Ok? <==> ParseInt(text).Some? && ParseInt(text).value >= DEFAULT_LEVEL
    ensures r.Ok? ==> ParseInt(text) == Some(r.value) && r.value <= INT64_MAX
  {
    match ParseInt(text)
    case None => Err
    case Some(n) => if n < DEFAULT_LEVEL then Err else Ok(n)
  }

  function LevelOf(lines: seq<string>): (r: Result<int>)
    ensures r.Ok? ==> DEFAULT_LEVEL <= r.value <= INT64_MAX
  {
    match FirstWith(lines, LEVEL_PREFIX)
    case None => Ok(DEFAULT_LEVEL)
    case Some(text) => ParseLevel(text)
  }

  function ProjectOf(lines: seq<string>): (r: Result<int>)
    ensures r.Ok? ==> INT64_MIN <= r.value <= INT64_MAX
  {
    match FirstWith(lines, ID_PREFIX)
    case None => Ok(-1)
    case Some(text) => match ParseInt(text) case None => Err case Some(n) => Ok(n)
  }

  function RecipientOf(valid: string -> bool, lines: seq<string>): Result<string> {
    match FirstWith(lines, RECIPIENT_PREFIX)
    case None => Ok("")
    case Some(text) => if valid(text) then Ok(text) else Err
  }

  /** Both headers, each from its own first line: the meaning of parseHeaders and parseHeadersV4. */
  function Both<T>(who: Result<T>, level: Result<int>): Result<(T, int)> {
    if who.Ok? && level.Ok? then Ok((who.value, level.value)) else Err
  }

  function ParseHeaders(header: string): Result<(int, int)> {
    Both(ProjectOf(Lines(header)), LevelOf(Lines(header)))
  }

  function ParseHeadersV4(valid: string -> bool, header: string): Result<(string, int)> {
    Both(RecipientOf(valid, Lines(header)), LevelOf(Lines(header)))
  }

  lemma {:induction false} FirstWithSnoc(lines: seq<string>, line: string, prefix: string)
    ensures FirstWith(lines + [line], prefix)
         == if FirstWith(lines, prefix).Some? then FirstWith(lines, prefix) else FirstWith([line], prefix)
  {
    if lines != [] {
      assert (lines + [line])[1..] == lines[1..] + [line];
      FirstWithSnoc(lines[1..], line, prefix);
    }
  }

  lemma {:induction false} FirstWithPrefix(done: seq<string>, todo: seq<string>, prefix: string)
    requires FirstWith(done, prefix).Some?
    ensures FirstWith(done + todo, prefix) == FirstWith(done, prefix)
  {
    if HasPrefix(done[0], prefix) {
    } else {
      assert (done + todo)[1..] == done[1..] + todo;
      FirstWithPrefix(done[1..], todo, prefix);
    }
  }

  /** One turn of either loop: the two header kinds never claim the same line. */
  lemma LineStep(lines: seq<string>, i: nat, who: string)
    requires i < |lines| && who in {ID_PREFIX, RECIPIENT_PREFIX}
    ensures FirstWith(lines[..i + 1], who)
         == if FirstWith(lines[..i], who).Some? then FirstWith(lines[..i], who) else FirstWith([lines[i]], who)
    ensures FirstWith(lines[..i + 1], LEVEL_PREFIX)
         == if FirstWith(lines[..i], LEVEL_PREFIX).Some? then FirstWith(lines[..i], LEVEL_PREFIX)
            else FirstWith([lines[i]], LEVEL_PREFIX)
    ensures FirstWith(lines[..i + 1], who).Some? ==> FirstWith(lines, who) == FirstWith(lines[..i + 1], who)
    ensures FirstWith(lines[..i + 1], LEVEL_PREFIX).Some?
        ==> FirstWith(lines, LEVEL_PREFIX) == FirstWith(lines[..i + 1], LEVEL_PREFIX)
    ensures HasPrefix(lines[i], who) ==> !HasPrefix(lines[i], LEVEL_PREFIX)
  {
    assert lines[..i + 1] == lines[..i] + [lines[i]];
    assert lines == lines[..i + 1] + lines[i + 1..];
    FirstWithSnoc(lines[..i], lines[i], who);
    FirstWithSnoc(lines[..i], lines[i], LEVEL_PREFIX);
    if FirstWith(lines[..i + 1], who).Some? { FirstWithPrefix(lines[..i + 1], lines[i + 1..], who); }
    if FirstWith(lines[..i + 1], LEVEL_PREFIX).Some? {
      FirstWithPrefix(lines[..i + 1], lines[i + 1..], LEVEL_PREFIX);
    }
    if HasPrefix(lines[i], who) {
      assert lines[i][8] == who[8] && LEVEL_PREFIX[8] == 'm';
    }
  }

  method ParseHeadersLoop(header: string) returns (r: Result<(int, int)>)
    ensures r == ParseHeaders(header)
  {
    var projectID, level := -1, DEFAULT_LEVEL;
    var gotID, gotLevel := false, false;
    var lines := Lines(header);
    for i := 0 to |lines|
      invariant gotID == FirstWith(lines[..i], ID_PREFIX).Some?
      invariant gotLevel == FirstWith(lines[..i], LEVEL_PREFIX).Some?
      invariant ProjectOf(lines[..i]) == Ok(projectID) && LevelOf(lines[..i]) == Ok(level)
    {
      var line := lines[i];
      LineStep(lines, i, ID_PREFIX);
      if !gotID && HasPrefix(line, ID_PREFIX) {
        var v := ParseInt(TrimSpace(TrimPrefix(line, ID_PREFIX)));
        if v.None? { return Err; }
        projectID, gotID := v.value, true;
      } else if !gotLevel && HasPrefix(line, LEVEL_PREFIX) {
        var lv := ParseLevel(TrimSpace(TrimPrefix(line, LEVEL_PREFIX)));
        if lv.Err? { return Err; }
        level, gotLevel := lv.value, true;
      }
    }
    assert lines[..|lines|] == lines;
    return Ok((projectID, level));
  }

  method ParseHeadersV4Loop(valid: string -> bool, header: string) returns (r: Result<(string, int)>)
    ensures r == ParseHeadersV4(valid, header)
  {
    var pubkey, level := "", DEFAULT_LEVEL;
    var gotKey, gotLevel := false, false;
    var lines := Lines(header);
    for i := 0 to |lines|
      invariant gotKey == FirstWith(lines[..i], RECIPIENT_PREFIX).Some?
      invariant gotLevel == FirstWith(lines[..i], LEVEL_PREFIX).Some?
      invariant RecipientOf(valid, lines[..i]) == Ok(pubkey) && LevelOf(lines[..i]) == Ok(level)
    {
      var line := lines[i];
      LineStep(lines, i, RECIPIENT_PREFIX);
      if !gotKey && HasPrefix(line, RECIPIENT_PREFIX) {
        var v := TrimSpace(TrimPrefix(line, RECIPIENT_PREFIX));
        if !valid(v) { return Err; }
        pubkey, gotKey := v, true;
      } else if !gotLevel && HasPrefix(line, LEVEL_PREFIX) {
        var lv := ParseLevel(TrimSpace(TrimPrefix(line, LEVEL_PREFIX)));
        if lv.Err? { return Err; }
        level, gotLevel := lv.value, true;
      }
    }
    assert lines[..|lines|] == lines;
    return Ok((pubkey, level));
  }

  /** Body and level of a numeric envelope sealed for `want`; the checks of UnsealVerified. */
  function Open(env: string, want: int): (r: Result<(string, int)>)
    ensures r.Ok? ==> DEFAULT_LEVEL <= r.value.1 <= INT64_MAX
  {
    match Split(env)
    case None => Err
    case Some((header, body)) =>
      match ParseHeaders(header)
      case Err => Err
      case Ok((id, level)) => if id <= 0 || id != want then Err else Ok((body, level))
  }

  /** The same for a keyed envelope; the checks of UnsealVerifiedByKey. */
  function OpenByKey(valid: string -> bool, env: string, want: string): (r: Result<(string, int)>)
    ensures r.Ok? ==> DEFAULT_LEVEL <= r.value.1 <= INT64_MAX
  {
    match Split(env)
    case None => Err
    case Some((header, body)) =>
      match ParseHeadersV4(valid, header)
      case Err => Err
      case Ok((key, level)) => if key == "" || key != want then Err else Ok((body, level))
  }

  /** EmbeddedProjectID: the id a numeric envelope carries, not compared with anything. */
  function EmbeddedID(env: string): (r: Result<int>)
    ensures r.Ok? ==> 0 < r.value <= INT64_MAX
  {
    match Split(env)
    case None => Err
    case Some((header, _)) =>
      match ParseHeaders(header)
      case Err => Err
      case Ok((id, _)) => if id <= 0 then Err else Ok(id)
  }

  // ---------------------------------------------------------------- where the split falls

  predicate NoBlank(s: string) {
    BlankLine(s).None?
  }

  /** The names the format carries safely: the name line does not end in, or hold, a blank line. */
  predicate NameOk(name: string) {
    NoBlank(name + "\n")
  }

  lemma NewlineFreeNameOk(name: string)
    requires NoNewline(name)
    ensures NameOk(name)
  {
  }

  function Shift(r: Option<nat>, n: nat): Option<nat> {
    match r case None => None case Some(i) => Some(i + n)
  }

  lemma {:induction false} BlankAfter(p: string, s: string)
    requires NoNewline(p)
    ensures BlankLine(p + s) == Shift(BlankLine(s), |p|)
  {
    if p == "" {
      assert p + s == s;
    } else {
      assert (p + s)[1..] == p[1..] + s;
      BlankAfter(p[1..], s);
    }
  }

  lemma BlankAfterNewline(s: string)
    requires s != "" && s[0] != '\n'
    ensures BlankLine("\n" + s) == Shift(BlankLine(s), 1)
  {
    assert ("\n" + s)[1..] == s;
  }

  lemma BlankAfterLine(p: string, s: string, whole: string)
    requires NoNewline(p) && s != "" && s[0] != '\n' && whole == p + "\n" + s
    ensures BlankLine(whole) == Shift(BlankLine(s), |p| + 1)
  {
    hide BlankLine, NoNewline;
    BlankAfterNewline(s);
    BlankAfter(p, "\n" + s);
    assert whole == p + ("\n" + s);
  }

  lemma SplitShape(header: string, body: string)
    ensures var r := Split(header + "\n\n" + body);
      && r.Some?
      && (NoBlank(header + "\n") ==> r == Some((header, body)))
      && (!NoBlank(header + "\n") ==> |r.value.1| > |body|)
  {
    var env := header + "\n\n" + body;
    var n := |header|;
    assert env[n] == '\n' && env[n + 1] == '\n';
    assert forall i :: 0 <= i <= n ==> env[i] == (header + "\n")[i];
    var r := BlankLine(env);
    if NoBlank(header + "\n") {
      assert forall i :: 0 <= i < n ==> !((header + "\n")[i] == '\n' && (header + "\n")[i + 1] == '\n');
      BlankLineAt(env, n);
      assert env[..n] == header && env[n + 2..] == body;
    } else {
      var i := BlankLine(header + "\n").value;
      assert env[i] == '\n' && env[i + 1] == '\n';
    }
  }

  // ---------------------------------------------------------------- the lines of a written header

  lemma DecNoNewline(n: nat)
    ensures NoNewline(Dec(n))
  {
    var s := Dec(n);
    assert forall i :: 0 <= i < |s| ==> s[i] != '\n';
  }

  lemma LevelLineShape(level: nat)
    ensures var l := LEVEL_PREFIX + Dec(level);
      && NoNewline(l) && HasPrefix(l, LEVEL_PREFIX) && TrimPrefix(l, LEVEL_PREFIX) == Dec(level)
      && !HasPrefix(l, ID_PREFIX) && !HasPrefix(l, RECIPIENT_PREFIX)
  {
    DecNoNewline(level);
    assert (LEVEL_PREFIX + Dec(level))[8] == 'm' && ID_PREFIX[8] == 'p' && RECIPIENT_PREFIX[8] == 'r';
  }

  predicate IsWho(who: string) {
    && NoNewline(who)
    && (HasPrefix(who, ID_PREFIX) || HasPrefix(who, RECIPIENT_PREFIX))
  }

  lemma WhoShape(who: string)
    requires IsWho(who)
    ensures !HasPrefix(who, LEVEL_PREFIX)
    ensures !(HasPrefix(who, ID_PREFIX) && HasPrefix(who, RECIPIENT_PREFIX))
  {
    assert HasPrefix(who, ID_PREFIX) ==> who[8] == ID_PREFIX[8] == 'p';
    assert HasPrefix(who, RECIPIENT_PREFIX) ==> who[8] == RECIPIENT_PREFIX[8] == 'r';
    assert LEVEL_PREFIX[8] == 'm';
  }

  lemma HeaderLines(who: string, level: nat, name: string)
    requires IsWho(who)
    ensures Lines(Header(who, level, name)) == [who, LEVEL_PREFIX + Dec(level)] + Lines(NAME_PREFIX + name)
  {
    var l, n := LEVEL_PREFIX + Dec(level), NAME_PREFIX + name;
    LevelLineShape(level);
    LinesCons(who, l + "\n" + n);
    LinesCons(l, n);
  }

  /** What a written header holds in front of the name. */
  function Front(who: string, level: nat): string {
    who + "\n" + (LEVEL_PREFIX + Dec(level) + "\n" + NAME_PREFIX)
  }

  lemma HeaderFront(who: string, level: nat, name: string)
    ensures Header(who, level, name) == Front(who, level) + name
  {
  }

  lemma StartsAs(a: string, b: string)
    requires a != ""
    ensures a + b != "" && (a + b)[0] == a[0]
  {
  }

  lemma BlankAfterTwo(a: string, b: string, c: string, tail: string, whole: string)
    requires NoNewline(a) && NoNewline(b) && b != "" && c != "" && b[0] != '\n' && c[0] != '\n'
    requires tail == b + "\n" + c && whole == a + "\n" + tail
    ensures BlankLine(whole) == Shift(BlankLine(c), |a| + |b| + 2)
  {
    hide BlankLine, NoNewline;
    BlankAfterLine(b, c, tail);
    StartsAs(b, "\n");
    StartsAs(b + "\n", c);
    BlankAfterLine(a, tail, whole);
  }

  lemma FrontHasNoBlank(who: string, level: nat, s: string)
    requires IsWho(who)
    ensures BlankLine(Front(who, level) + s) == Shift(BlankLine(s), |Front(who, level)|)
  {
    hide BlankLine, Dec;
    var l := LEVEL_PREFIX + Dec(level);
    LevelLineShape(level);
    BlankAfter(NAME_PREFIX, s);
    var tail := l + "\n" + (NAME_PREFIX + s);
    assert Front(who, level) + s == who + "\n" + tail;
    BlankAfterTwo(who, l, NAME_PREFIX + s, tail, Front(who, level) + s);
  }

  /** As much of the name as stays in the header: what precedes its first blank line, if it brings one. */
  function Shown(name: string): (s: string)
    ensures NameOk(name) ==> s == name
  {
    match BlankLine(name + "\n")
    case None => name
    case Some(i) => name[..i]
  }

  /** What the reader takes for the start of the body: the rest of such a name, and the blank line that
      was meant to end the header. */
  function Spilled(name: string): (s: string)
    ensures s == "" <==> NameOk(name)
  {
    match BlankLine(name + "\n")
    case None => ""
    case Some(i) => (name + "\n")[i + 2..] + "\n"
  }

  lemma SplitAfter(front: string, name: string, plaintext: string)
    requires BlankLine(front + (name + "\n")) == Shift(BlankLine(name + "\n"), |front|)
    ensures Split(front + name + "\n\n" + plaintext) == Some((front + Shown(name), Spilled(name) + plaintext))
  {
    hide BlankLine;
    var line := name + "\n";
    if NameOk(name) {
      assert front + name + "\n" == front + line;
      SplitShape(front + name, plaintext);
      assert Spilled(name) + plaintext == plaintext;
    } else {
      var rest := "\n" + plaintext;
      BlankOfPrefix(front + line, rest);
      SplitInName(front, line, rest, BlankLine(line).value);
      assert front + name + "\n\n" + plaintext == front + line + rest;
      assert Spilled(name) + plaintext == line[BlankLine(line).value + 2..] + rest;
      assert Shown(name) == line[..BlankLine(line).value];
    }
  }

  lemma SplitInName(front: string, line: string, rest: string, i: nat)
    requires i + 2 <= |line| && BlankLine(front + line + rest) == Some(|front| + i)
    ensures Split(front + line + rest) == Some((front + line[..i], line[i + 2..] + rest))
  {
    hide BlankLine;
    var env := front + line + rest;
    assert env[..|front| + i] == front + line[..i];
    assert env[|front| + i + 2..] == line[i + 2..] + rest;
  }

  lemma BlankOfPrefix(s: string, rest: string)
    requires BlankLine(s).Some?
    ensures BlankLine(s + rest) == BlankLine(s)
  {
    var n := BlankLine(s).value;
    assert forall j :: 0 <= j < |s| ==> (s + rest)[j] == s[j];
    BlankLineAt(s + rest, n);
  }

  /** Where the split of a written envelope falls, for every name and plaintext. */
  lemma SplitWritten(who: string, level: nat, name: string, plaintext: string)
    requires IsWho(who)
    ensures Split(EnvelopeOf(who, level, name, plaintext))
         == Some((Header(who, level, Shown(name)), Spilled(name) + plaintext))
  {
    HeaderFront(who, level, name);
    HeaderFront(who, level, Shown(name));
    FrontHasNoBlank(who, level, name + "\n");
    SplitAfter(Front(who, level), name, plaintext);
  }

  lemma LevelOfWritten(who: string, level: nat, rest: seq<string>)
    requires IsWho(who) && level <= INT64_MAX
    ensures LevelOf([who, LEVEL_PREFIX + Dec(level)] + rest) == if level < DEFAULT_LEVEL then Err else Ok(level)
  {
    WhoShape(who);
    LevelLineShape(level);
    ParseIntOfDec(level);
    var lines := [who, LEVEL_PREFIX + Dec(level)] + rest;
    assert FirstWith(lines, LEVEL_PREFIX) == FirstWith(lines[1..], LEVEL_PREFIX);
  }

  lemma ProjectOfWritten(projectID: nat, rest: seq<string>)
    requires projectID <= INT64_MAX
    ensures IsWho(NumericLine(projectID))
    ensures ProjectOf([NumericLine(projectID)] + rest) == Ok(projectID)
  {
    DecNoNewline(projectID);
    ParseIntOfDec(projectID);
    assert TrimPrefix(NumericLine(projectID), ID_PREFIX) == Dec(projectID);
  }

  /** What a public key must be to sit on a header line: one trimmed, newline-free word that parses. */
  predicate KeyOk(valid: string -> bool, pubkey: string) {
    valid(pubkey) && pubkey != "" && Trimmed(pubkey) && NoNewline(pubkey)
  }

  lemma RecipientOfWritten(valid: string -> bool, pubkey: string, rest: seq<string>)
    requires KeyOk(valid, pubkey)
    ensures IsWho(KeyLine(pubkey))
    ensures RecipientOf(valid, [KeyLine(pubkey)] + rest) == Ok(pubkey)
  {
    TrimSpaceFixes(pubkey);
    assert TrimPrefix(KeyLine(pubkey), RECIPIENT_PREFIX) == pubkey;
  }

  // ---------------------------------------------------------------- round trips

  /** The embedded id is the one project an envelope opens for. */
  lemma OpensForEmbedded(env: string, id: int)
    ensures Open(env, id).Ok? <==> EmbeddedID(env) == Ok(id)
  {
  }

  lemma SkipTwo(a: string, b: string, rest: seq<string>, prefix: string)
    requires !HasPrefix(a, prefix) && !HasPrefix(b, prefix)
    ensures FirstWith([a, b] + rest, prefix) == FirstWith(rest, prefix)
  {
    var lines := [a, b] + rest;
    assert lines[1..] == [b] + rest && lines[1..][1..] == rest;
  }

  /** A discriminator line of its own is all a header written for one family offers the reader of
      the other, and only the name can bring one. */
  lemma WrittenTail(who: string, level: nat, name: string, prefix: string)
    requires IsWho(who) && prefix in {ID_PREFIX, RECIPIENT_PREFIX} && !HasPrefix(who, prefix)
    ensures FirstWith(Lines(Header(who, level, name)), prefix) == FirstWith(Lines(NAME_PREFIX + name), prefix)
  {
    HeaderLines(who, level, name);
    LevelLineShape(level);
    SkipTwo(who, LEVEL_PREFIX + Dec(level), Lines(NAME_PREFIX + name), prefix);
  }

  lemma WrittenLevel(who: string, level: nat, name: string)
    requires IsWho(who) && level <= INT64_MAX
    ensures LevelOf(Lines(Header(who, level, name))) == if level < DEFAULT_LEVEL then Err else Ok(level)
  {
    HeaderLines(who, level, name);
    LevelOfWritten(who, level, Lines(NAME_PREFIX + name));
  }

  /** A level below Developer can be sealed, but no reader accepts the envelope, under any name. */
  lemma LowLevelRefused(valid: string -> bool, who: string, level: nat, name: string, plaintext: string,
                        wantID: int, wantKey: string)
    requires IsWho(who) && level < DEFAULT_LEVEL
    ensures Open(EnvelopeOf(who, level, name, plaintext), wantID).Err?
    ensures OpenByKey(valid, EnvelopeOf(who, level, name, plaintext), wantKey).Err?
  {
    WrittenLevel(who, level, Shown(name));
    SplitWritten(who, level, name, plaintext);
  }

  /** Whatever its name, a numeric envelope opens for its own project at its level, to the plaintext
      behind whatever the name spills, and for no other project. */
  lemma NumericOpens(projectID: nat, level: nat, name: string, plaintext: string, want: int)
    requires 0 < projectID <= INT64_MAX && level <= INT64_MAX
    ensures Open(EnvelopeOf(NumericLine(projectID), level, name, plaintext), want)
         == if level >= DEFAULT_LEVEL && want == projectID then Ok((Spilled(name) + plaintext, level)) else Err
  {
    var who, shown := NumericLine(projectID), Shown(name);
    var rest := Lines(NAME_PREFIX + shown);
    ProjectOfWritten(projectID, [LEVEL_PREFIX + Dec(level)] + rest);
    assert [who] + ([LEVEL_PREFIX + Dec(level)] + rest) == [who, LEVEL_PREFIX + Dec(level)] + rest;
    HeaderLines(who, level, shown);
    WrittenLevel(who, level, shown);
    SplitWritten(who, level, name, plaintext);
  }

  lemma KeyedOpens(valid: string -> bool, pubkey: string, level: nat, name: string, plaintext: string, want: string)
    requires KeyOk(valid, pubkey) && level <= INT64_MAX
    ensures OpenByKey(valid, EnvelopeOf(KeyLine(pubkey), level, name, plaintext), want)
         == if level >= DEFAULT_LEVEL && want == pubkey then Ok((Spilled(name) + plaintext, level)) else Err
  {
    var who, shown := KeyLine(pubkey), Shown(name);
    var rest := Lines(NAME_PREFIX + shown);
    RecipientOfWritten(valid, pubkey, [LEVEL_PREFIX + Dec(level)] + rest);
    assert [who] + ([LEVEL_PREFIX + Dec(level)] + rest) == [who, LEVEL_PREFIX + Dec(level)] + rest;
    HeaderLines(who, level, shown);
    WrittenLevel(who, level, shown);
    SplitWritten(who, level, name, plaintext);
  }

  /** A numeric envelope opens to exactly what was sealed, for every body, iff the level is one
      the reader accepts and the name brings no blank line of its own. */
  lemma NumericRoundTrip(projectID: nat, level: nat, name: string, plaintext: string)
    requires 0 < projectID <= INT64_MAX && level <= INT64_MAX
    ensures Open(EnvelopeOf(NumericLine(projectID), level, name, plaintext), projectID) == Ok((plaintext, level))
       <==> level >= 30 && NameOk(name)
    ensures level >= DEFAULT_LEVEL
        ==> EmbeddedID(EnvelopeOf(NumericLine(projectID), level, name, plaintext)) == Ok(projectID)
  {
    NumericOpens(projectID, level, name, plaintext, projectID);
    SpillLengthens(name, plaintext);
    OpensForEmbedded(EnvelopeOf(NumericLine(projectID), level, name, plaintext), projectID);
  }

  lemma KeyedRoundTrip(valid: string -> bool, pubkey: string, level: nat, name: string, plaintext: string)
    requires KeyOk(valid, pubkey) && level <= INT64_MAX
    ensures OpenByKey(valid, EnvelopeOf(KeyLine(pubkey), level, name, plaintext), pubkey) == Ok((plaintext, level))
       <==> level >= 30 && NameOk(name)
  {
    KeyedOpens(valid, pubkey, level, name, plaintext, pubkey);
    SpillLengthens(name, plaintext);
  }

  lemma SpillLengthens(name: string, plaintext: string)
    ensures Spilled(name) + plaintext == plaintext <==> NameOk(name)
  {
    assert |Spilled(name) + plaintext| == |Spilled(name)| + |plaintext|;
  }

  /** A numeric envelope opens by key exactly when what its name shows in the header spells that key on a
      header line. */
  lemma NumericByKey(valid: string -> bool, projectID: nat, level: nat, name: string, plaintext: string, want: string)
    requires 0 < projectID <= INT64_MAX && level <= INT64_MAX
    ensures OpenByKey(valid, EnvelopeOf(NumericLine(projectID), level, name, plaintext), want).Ok?
       <==> && level >= DEFAULT_LEVEL && want != "" && valid(want)
            && FirstWith(Lines(NAME_PREFIX + Shown(name)), RECIPIENT_PREFIX) == Some(want)
  {
    var who := NumericLine(projectID);
    ProjectOfWritten(projectID, []);
    WhoShape(who);
    WrittenTail(who, level, Shown(name), RECIPIENT_PREFIX);
    WrittenLevel(who, level, Shown(name));
    SplitWritten(who, level, name, plaintext);
  }

  /** A keyed envelope opens by id exactly when what its name shows in the header spells that id on a
      header line. */
  lemma KeyedByNumber(valid: string -> bool, pubkey: string, level: nat, name: string, plaintext: string, want: int)
    requires KeyOk(valid, pubkey) && level <= INT64_MAX
    ensures Open(EnvelopeOf(KeyLine(pubkey), level, name, plaintext), want).Ok?
       <==> && level >= DEFAULT_LEVEL && want > 0
            && ProjectOf(Lines(NAME_PREFIX + Shown(name))) == Ok(want)
  {
    var who := KeyLine(pubkey);
    RecipientOfWritten(valid, pubkey, []);
    WhoShape(who);
    WrittenTail(who, level, Shown(name), ID_PREFIX);
    WrittenLevel(who, level, Shown(name));
    SplitWritten(who, level, name, plaintext);
  }

  lemma PlainNameTail(name: string, prefix: string)
    requires NoNewline(name) && prefix in {ID_PREFIX, RECIPIENT_PREFIX}
    ensures FirstWith(Lines(NAME_PREFIX + name), prefix) == None
  {
    var n := NAME_PREFIX + name;
    LinesOfPlain(n);
    assert n[8] == 'n' && ID_PREFIX[8] == 'p' && RECIPIENT_PREFIX[8] == 'r';
  }

  /** With a one-line name, neither reader accepts an envelope of the other family. */
  lemma FamiliesDisjoint(valid: string -> bool, projectID: nat, pubkey: string, level: nat,
                         name: string, plaintext: string, wantKey: string, wantID: int)
    requires 0 < projectID <= INT64_MAX && level <= INT64_MAX && KeyOk(valid, pubkey) && NoNewline(name)
    ensures OpenByKey(valid, EnvelopeOf(NumericLine(projectID), level, name, plaintext), wantKey).Err?
    ensures Open(EnvelopeOf(KeyLine(pubkey), level, name, plaintext), wantID).Err?
  {
    NewlineFreeNameOk(name);
    PlainNameTail(name, ID_PREFIX);
    PlainNameTail(name, RECIPIENT_PREFIX);
    NumericByKey(valid, projectID, level, name, plaintext, wantKey);
    KeyedByNumber(valid, pubkey, level, name, plaintext, wantID);
  }

  /** An envelope for one project never opens for another, whatever its name and body. */
  lemma OpenedForOne(valid: string -> bool, env: string, id1: int, id2: int, key1: string, key2: string)
    ensures Open(env, id1).Ok? && Open(env, id2).Ok? ==> id1 == id2
    ensures OpenByKey(valid, env, key1).Ok? && OpenByKey(valid, env, key2).Ok? ==> key1 == key2
  {
  }

  /** An envelope without a level line, as written before there was one, opens at Developer. */
  lemma UnlevelledOpens(valid: string -> bool, projectID: nat, pubkey: string, name: string, plaintext: string)
    requires 0 < projectID <= INT64_MAX && KeyOk(valid, pubkey) && NoNewline(name)
    ensures Open(NumericLine(projectID) + "\n" + (NAME_PREFIX + name) + "\n\n" + plaintext, projectID) == Ok((plaintext, 30))
    ensures OpenByKey(valid, KeyLine(pubkey) + "\n" + (NAME_PREFIX + name) + "\n\n" + plaintext, pubkey) == Ok((plaintext, 30))
  {
    var n := NAME_PREFIX + name;
    ProjectOfWritten(projectID, [n]);
    RecipientOfWritten(valid, pubkey, [n]);
    UnlevelledHeader(NumericLine(projectID), name, plaintext);
    UnlevelledHeader(KeyLine(pubkey), name, plaintext);
  }

  lemma UnlevelledHeader(who: string, name: string, plaintext: string)
    requires IsWho(who) && NoNewline(name)
    ensures var header := who + "\n" + (NAME_PREFIX + name);
      && Split(header + "\n\n" + plaintext) == Some((header, plaintext))
      && Lines(header) == [who] + [NAME_PREFIX + name]
      && LevelOf(Lines(header)) == Ok(30)
  {
    hide BlankLine;
    var n := NAME_PREFIX + name;
    var header := who + "\n" + n;
    NewlineFreeNameOk(name);
    BlankAfter(NAME_PREFIX, name + "\n");
    assert n + "\n" == NAME_PREFIX + (name + "\n");
    assert header + "\n" == who + "\n" + (n + "\n");
    assert (n + "\n")[0] == 'g';
    BlankAfterLine(who, n + "\n", header + "\n");
    SplitShape(header, plaintext);
    LinesCons(who, n);
    LinesOfPlain(n);
    WhoShape(who);
    assert n[8] == 'n' && LEVEL_PREFIX[8] == 'm';
    assert Lines(header)[1..] == [n] && [n][1..] == [];
    assert FirstWith([n], LEVEL_PREFIX) == None;
  }
}
