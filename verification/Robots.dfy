/**
 packages/shared/src/aeo-engine-matrix.ts: reading robots.txt, choosing the group of an
 agent, and deciding whether it may fetch a path.
 */
module Robots {
  import opened Options

  // ----- strings

  /** White space and line terminators, as `trim` removes them. */
  predicate IsSpace(c: char) {
    var n := c as int;
    0x9 <= n <= 0xD || n == 0x20 || n == 0xA0 || n == 0x1680 || 0x2000 <= n <= 0x200A
    || n == 0x2028 || n == 0x2029 || n == 0x202F || n == 0x205F || n == 0x3000 || n == 0xFEFF
  }

  predicate Trimmed(s: string) {
    s == "" || (!IsSpace(s[0]) && !IsSpace(s[|s| - 1]))
  }

  function TrimStart(s: string): (t: string)
    ensures t == "" || !IsSpace(t[0])
    ensures exists k :: 0 <= k <= |s| && t == s[k..]
  {
    if s != "" && IsSpace(s[0]) then
      var t := TrimStart(s[1..]);
      assert forall k :: 0 <= k <= |s[1..]| ==> s[1..][k..] == s[k + 1..];
      t
    else
      assert s == s[0..];
      s
  }

  function TrimEnd(s: string): (t: string)
    ensures t == "" || !IsSpace(t[|t| - 1])
    ensures |t| <= |s| && t == s[..|t|]
  {
    if s != "" && IsSpace(s[|s| - 1]) then TrimEnd(s[..|s| - 1]) else s
  }

  function Trim(s: string): (t: string)
    ensures Trimmed(t)
  {
    TrimEnd(TrimStart(s))
  }

  lemma TrimLacks(s: string, c: char)
    requires c !in s
    ensures c !in Trim(s)
  {
    var k :| 0 <= k <= |s| && TrimStart(s) == s[k..];
    assert forall i :: 0 <= i < |Trim(s)| ==> Trim(s)[i] == TrimStart(s)[i] == s[k + i];
  }

  function LowerChar(c: char): char {
    if 'A' <= c <= 'Z' then (c as int + 32) as char else c
  }

  function Lower(s: string): (t: string)
    ensures |t| == |s| && forall i :: 0 <= i < |s| ==> t[i] == LowerChar(s[i])
  {
    seq(|s|, i requires 0 <= i < |s| => LowerChar(s[i]))
  }

  /** The part before the first `c`, or everything. */
  function Until(s: string, c: char): (t: string)
    ensures c !in t && |t| <= |s| && t == s[..|t|]
    ensures |t| < |s| ==> s[|t|] == c
  {
    if s == "" || s[0] == c then ""
    else
      var t := Until(s[1..], c);
      [s[0]] + t
  }

  /** `split(/\r?\n/)` */
  function Lines(text: string): (lines: seq<string>)
    ensures |lines| > 0
    ensures forall i :: 0 <= i < |lines| ==> '\n' !in lines[i]
    decreases |text|
  {
    var line := Until(text, '\n');
    var bare := if line != "" && line[|line| - 1] == '\r' && |line| < |text| then line[..|line| - 1] else line;
    if |line| == |text| then [bare] else [bare] + Lines(text[|line| + 1..])
  }

  // ----- directives

  datatype Directive =
    | Agent(value: string) | Allow(value: string) | Disallow(value: string) | Sitemap(value: string) | Nothing

  function Classify(field: string, value: string): Directive {
    if field == "user-agent" then Agent(Lower(value))
    else if field == "sitemap" then Sitemap(value)
    else if field == "allow" then Allow(value)
    else if field == "disallow" then Disallow(value)
    else Nothing
  }

  function ParseField(line: string): Directive {
    var name := Until(line, ':');
    if |name| == |line| then Nothing else Classify(Lower(Trim(name)), Trim(line[|name| + 1..]))
  }

  function ParseLine(raw: string): Directive {
    ParseField(Trim(Until(raw, '#')))
  }

  // ----- groups

  datatype Group = Group(agents: seq<string>, allow: seq<string>, disallow: seq<string>)

  predicate HasRules(g: Group) {
    g.allow != [] || g.disallow != []
  }

  /** `current` is the group being read. */
  datatype Reader = Reader(groups: seq<Group>, current: Option<Group>, sitemaps: seq<string>)

  const START := Reader([], None, [])

  function CurrentOf(r: Reader): Group {
    if r.current.Some? then r.current.value else Group([], [], [])
  }

  function Read(r: Reader, d: Directive): Reader {
    match d
    case Agent(v) =>
      if r.current.Some? && HasRules(r.current.value) then
        Reader(r.groups + [r.current.value], Some(Group([v], [], [])), r.sitemaps)
      else r.(current := Some(CurrentOf(r).(agents := CurrentOf(r).agents + [v])))
    case Allow(v) => r.(current := Some(CurrentOf(r).(allow := CurrentOf(r).allow + [v])))
    case Disallow(v) => r.(current := Some(CurrentOf(r).(disallow := CurrentOf(r).disallow + [v])))
    case Sitemap(v) => if v == "" then r else r.(sitemaps := r.sitemaps + [v])
    case Nothing => r
  }

  function ReadAll(r: Reader, lines: seq<string>): Reader
    decreases |lines|
  {
    if lines == [] then r else ReadAll(Read(r, ParseLine(lines[0])), lines[1..])
  }

  function GroupsOf(r: Reader): seq<Group> {
    if r.current.Some? then r.groups + [r.current.value] else r.groups
  }

  function Parse(text: string): seq<Group> {
    GroupsOf(ReadAll(START, Lines(text)))
  }

  function Sitemaps(text: string): seq<string> {
    ReadAll(START, Lines(text)).sitemaps
  }

  // ----- printing

  function Fields(name: string, values: seq<string>): seq<string> {
    seq(|values|, i requires 0 <= i < |values| => name + ": " + values[i])
  }

  function GroupLines(g: Group): seq<string> {
    Fields("user-agent", g.agents) + Fields("allow", g.allow) + Fields("disallow", g.disallow)
  }

  function AllLines(groups: seq<Group>): seq<string> {
    if groups == [] then [] else GroupLines(groups[0]) + AllLines(groups[1..])
  }

  function Join(lines: seq<string>): string {
    if lines == [] then "" else lines[0] + "\n" + Join(lines[1..])
  }

  function Print(groups: seq<Group>): string {
    Join(AllLines(groups))
  }

  // ----- what a parse result looks like

  /** A value that survives printing: trimmed, and no comment sign or line feed in it. */
  predicate Clean(v: string) {
    Trimmed(v) && '#' !in v && '\n' !in v
  }

  predicate CleanAgent(v: string) {
    Clean(v) && Lower(v) == v
  }

  /** The values of the lines of one field. */
  predicate CleanValues(name: string, values: seq<string>) {
    forall i :: 0 <= i < |values| ==> Clean(values[i]) && (name == "user-agent" ==> CleanAgent(values[i]))
  }

  predicate CleanGroup(g: Group) {
    CleanValues("user-agent", g.agents) && CleanValues("allow", g.allow) && CleanValues("disallow", g.disallow)
  }

  /** Only the first group may lack agents, only the last may lack rules, and none lacks both. */
  predicate WellGrouped(groups: seq<Group>) {
    && (forall i :: 0 < i < |groups| ==> groups[i].agents != [])
    && (forall i :: 0 <= i < |groups| - 1 ==> HasRules(groups[i]))
    && (forall i :: 0 <= i < |groups| ==> groups[i].agents != [] || HasRules(groups[i]))
  }

  predicate Printable(groups: seq<Group>) {
    WellGrouped(groups) && forall i :: 0 <= i < |groups| ==> CleanGroup(groups[i])
  }

  lemma LowerCharFacts(c: char)
    ensures LowerChar(c) == '#' ==> c == '#'
    ensures LowerChar(c) == '\n' ==> c == '\n'
    ensures IsSpace(LowerChar(c)) ==> IsSpace(c)
    ensures LowerChar(LowerChar(c)) == LowerChar(c)
  {
  }

  lemma LowerClean(v: string)
    requires Clean(v)
    ensures CleanAgent(Lower(v))
  {
    var w := Lower(v);
    forall i | 0 <= i < |w|
      ensures w[i] != '#' && w[i] != '\n' && (IsSpace(w[i]) ==> IsSpace(v[i])) && LowerChar(w[i]) == w[i]
    {
      LowerCharFacts(v[i]);
      assert v[i] in v;
    }
    hide IsSpace, LowerChar;
    assert Lower(w) == w;
  }

  lemma ParsedValuesAreClean(raw: string)
    requires '\n' !in raw
    ensures var d := ParseLine(raw);
            (d.Agent? ==> CleanAgent(d.value)) && (d.Allow? || d.Disallow? ==> Clean(d.value))
  {
    hide Trim, Until, Lower, CleanAgent;
    var before := Until(raw, '#');
    LacksSlice(raw, 0, |before|, '\n');
    assert before == raw[0..|before|];
    TrimLacks(before, '#');
    TrimLacks(before, '\n');
    var line := Trim(before);
    var name := Until(line, ':');
    if |name| < |line| {
      var rest := line[|name| + 1..];
      LacksSlice(line, |name| + 1, |line|, '#');
      LacksSlice(line, |name| + 1, |line|, '\n');
      assert rest == line[|name| + 1..|line|];
      TrimLacks(rest, '#');
      TrimLacks(rest, '\n');
      LowerClean(Trim(rest));
    }
  }

  lemma LacksSlice(s: string, from: nat, to: nat, c: char)
    requires from <= to <= |s| && c !in s
    ensures c !in s[from..to]
  {
  }

  ghost predicate GoodGroup(g: Group, first: bool) {
    CleanGroup(g) && (g.agents != [] || HasRules(g)) && (first || g.agents != [])
  }

  ghost predicate GoodReader(r: Reader) {
    && (forall i :: 0 <= i < |r.groups| ==> GoodGroup(r.groups[i], i == 0) && HasRules(r.groups[i]))
    && (r.current.Some? ==> GoodGroup(r.current.value, r.groups == []))
    && (r.current.None? ==> r.groups == [])
  }

  lemma ReadKeepsGood(r: Reader, raw: string)
    requires GoodReader(r) && '\n' !in raw
    ensures GoodReader(Read(r, ParseLine(raw)))
  {
    ParsedValuesAreClean(raw);
    DirectiveKeepsGood(r, ParseLine(raw));
  }

  lemma DirectiveKeepsGood(r: Reader, d: Directive)
    requires GoodReader(r)
    requires (d.Agent? ==> CleanAgent(d.value)) && (d.Allow? || d.Disallow? ==> Clean(d.value))
    ensures GoodReader(Read(r, d))
  {
    var g := CurrentOf(r);
    CleanNothing();
    if d.Agent? {
      CleanOne("user-agent", [], d.value);
      CleanOne("user-agent", g.agents, d.value);
      assert [] + [d.value] == [d.value];
    } else if d.Allow? {
      CleanOne("allow", g.allow, d.value);
    } else if d.Disallow? {
      CleanOne("disallow", g.disallow, d.value);
    }
    hide CleanValues, Clean, CleanAgent;
  }

  lemma CleanNothing()
    ensures CleanValues("user-agent", []) && CleanValues("allow", []) && CleanValues("disallow", [])
  {
  }

  lemma CleanOne(name: string, values: seq<string>, v: string)
    requires CleanValues(name, values) && Clean(v) && (name == "user-agent" ==> CleanAgent(v))
    ensures CleanValues(name, values + [v])
  {
    hide Clean, CleanAgent;
  }

  lemma {:induction false} ReadAllKeepsGood(r: Reader, lines: seq<string>)
    requires GoodReader(r) && forall i :: 0 <= i < |lines| ==> '\n' !in lines[i]
    ensures GoodReader(ReadAll(r, lines))
    decreases |lines|
  {
    hide ParseLine, Read, GoodReader;
    if lines != [] {
      ReadKeepsGood(r, lines[0]);
      ReadAllKeepsGood(Read(r, ParseLine(lines[0])), lines[1..]);
    }
  }

  lemma GoodIsPrintable(r: Reader)
    requires GoodReader(r)
    ensures Printable(GroupsOf(r))
  {
    hide CleanGroup, HasRules;
    var groups := GroupsOf(r);
    forall i | 0 <= i < |groups|
      ensures GoodGroup(groups[i], i == 0) && (i < |groups| - 1 ==> HasRules(groups[i]))
    {
      assert i < |r.groups| ==> groups[i] == r.groups[i];
    }
  }

  /** Whatever the text, the groups read from it can be printed. */
  lemma ParseIsPrintable(text: string)
    ensures Printable(Parse(text))
  {
    hide Lines, ReadAll, GroupsOf, Printable;
    StartIsGood();
    ReadAllKeepsGood(START, Lines(text));
    GoodIsPrintable(ReadAll(START, Lines(text)));
  }

  lemma StartIsGood()
    ensures GoodReader(START)
  {
  }

  // ----- reading what was printed

  lemma UntilAbsent(s: string, c: char)
    requires c !in s
    ensures Until(s, c) == s
  {
  }

  lemma {:induction false} UntilFirst(s: string, c: char, rest: string)
    requires c !in s
    ensures Until(s + [c] + rest, c) == s
    decreases |s|
  {
    var all := s + [c] + rest;
    if s != "" {
      assert all[1..] == s[1..] + [c] + rest;
      UntilFirst(s[1..], c, rest);
    }
  }

  lemma TrimTrimmed(s: string)
    requires Trimmed(s)
    ensures Trim(s) == s
  {
  }

  predicate IsName(name: string) {
    name == "user-agent" || name == "allow" || name == "disallow"
  }

  function DirectiveOf(name: string, v: string): Directive {
    if name == "user-agent" then Agent(v) else if name == "allow" then Allow(v) else Disallow(v)
  }

  lemma NameFacts(name: string)
    requires IsName(name)
    ensures '#' !in name && ':' !in name && '\n' !in name && name != "" && Trimmed(name) && Lower(name) == name
  {
  }

  lemma TrimOneBlank(head: string)
    requires head != "" && Trimmed(head)
    ensures Trim(head + " ") == head
  {
    SpaceFacts();
    hide IsSpace;
    var s := head + " ";
    assert s[..|s| - 1] == head && s[0] == head[0];
    assert TrimStart(s) == s;
    assert TrimEnd(head) == head;
  }

  /** The trimmed line: the blank after the colon goes when the value is empty. */
  lemma TrimField(name: string, v: string)
    requires Trimmed(name) && name != "" && Trimmed(v)
    ensures Trim(name + ": " + v) == name + ":" + (if v == "" then "" else " " + v)
  {
    SpaceFacts();
    hide IsSpace, Trim;
    if v == "" {
      assert name + ": " + v == (name + ":") + " ";
      TrimOneBlank(name + ":");
    } else {
      TrimTrimmed(name + ": " + v);
      assert name + ": " + v == name + ":" + (" " + v);
    }
  }

  lemma TrimBlank(v: string)
    requires Trimmed(v)
    ensures Trim(" " + v) == v
  {
    assert (" " + v)[1..] == v;
    TrimTrimmed(v);
  }

  lemma PrintedLine(name: string, v: string)
    requires IsName(name) && Clean(v) && (name == "user-agent" ==> CleanAgent(v))
    ensures ParseLine(name + ": " + v) == DirectiveOf(name, v)
    ensures IsPrintedLine(name + ": " + v)
  {
    hide Trim, Until, Lower, IsSpace;
    NameFacts(name);
    var raw := name + ": " + v;
    UntilAbsent(raw, '#');
    TrimField(name, v);
    PrintedField(name, if v == "" then "" else " " + v, v);
    SpaceFacts();
  }

  lemma SpaceFacts()
    ensures IsSpace('\r') && IsSpace(' ') && !IsSpace(':')
  {
  }

  lemma PrintedField(name: string, tail: string, v: string)
    requires IsName(name) && Clean(v) && (name == "user-agent" ==> CleanAgent(v))
    requires tail == if v == "" then "" else " " + v
    ensures ParseField(name + ":" + tail) == DirectiveOf(name, v)
  {
    hide Trim, Until, Lower, IsSpace;
    NameFacts(name);
    UntilFirst(name, ':', tail);
    var line := name + ":" + tail;
    assert name + [':'] + tail == line;
    TrimTrimmed(name);
    assert line[|name| + 1..] == tail;
    if v == "" {
      TrimTrimmed("");
    } else {
      TrimBlank(v);
    }
  }

  predicate IsPrintedLine(line: string) {
    '\n' !in line && line != "" && line[|line| - 1] != '\r'
  }

  lemma {:induction false} LinesOfJoin(lines: seq<string>)
    requires forall i :: 0 <= i < |lines| ==> IsPrintedLine(lines[i])
    ensures Lines(Join(lines)) == lines + [""]
    decreases |lines|
  {
    hide Until, Lines, IsPrintedLine;
    if lines == [] {
      LinesOfEmpty();
    } else {
      var tail := lines[1..];
      assert forall i :: 0 <= i < |tail| ==> tail[i] == lines[i + 1];
      LinesCons(lines[0], Join(tail));
      LinesOfJoin(tail);
      LastLine(lines);
    }
  }

  lemma LastLine(lines: seq<string>)
    requires lines != []
    ensures [lines[0]] + (lines[1..] + [""]) == lines + [""]
  {
  }

  lemma LinesOfEmpty()
    ensures Lines("") == [""]
  {
  }

  lemma LinesCons(line: string, rest: string)
    requires IsPrintedLine(line)
    ensures Lines(line + "\n" + rest) == [line] + Lines(rest)
  {
    hide Until;
    var text := line + "\n" + rest;
    UntilFirst(line, '\n', rest);
    assert line + ['\n'] + rest == text;
    assert text[|line| + 1..] == rest;
  }

  lemma {:induction false} ReadAppend(r: Reader, a: seq<string>, b: seq<string>)
    ensures ReadAll(r, a + b) == ReadAll(ReadAll(r, a), b)
    decreases |a|
  {
    if a == [] {
      assert a + b == b;
    } else {
      assert (a + b)[1..] == a[1..] + b;
      ReadAppend(Read(r, ParseLine(a[0])), a[1..], b);
    }
  }

  function AddField(g: Group, name: string, values: seq<string>): Group {
    if name == "user-agent" then g.(agents := g.agents + values)
    else if name == "allow" then g.(allow := g.allow + values)
    else g.(disallow := g.disallow + values)
  }

  lemma FieldsStep(name: string, values: seq<string>)
    requires values != []
    ensures Fields(name, values) == [name + ": " + values[0]] + Fields(name, values[1..])
  {
  }

  lemma {:induction false} ReadCons(r: Reader, line: string, lines: seq<string>)
    ensures ReadAll(r, [line] + lines) == ReadAll(Read(r, ParseLine(line)), lines)
  {
    assert ([line] + lines)[1..] == lines;
  }

  lemma ReadField(r: Reader, name: string, v: string, values: seq<string>)
    requires IsName(name) && CleanValues(name, [v] + values)
    ensures ReadAll(r, Fields(name, [v] + values)) == ReadAll(Read(r, DirectiveOf(name, v)), Fields(name, values))
    ensures CleanValues(name, values)
  {
    hide Fields, ReadAll, Read, ParseLine, Clean, CleanAgent;
    assert ([v] + values)[0] == v && ([v] + values)[1..] == values;
    FieldsStep(name, [v] + values);
    PrintedLine(name, v);
    ReadCons(r, name + ": " + v, Fields(name, values));
    assert forall i :: 0 <= i < |values| ==> values[i] == ([v] + values)[i + 1];
  }

  /** Lines of one field all go into the current group. */
  lemma {:induction false} ReadFields(r: Reader, name: string, values: seq<string>)
    requires IsName(name) && CleanValues(name, values)
    requires name == "user-agent" ==> !HasRules(CurrentOf(r))
    ensures ReadAll(r, Fields(name, values))
            == if values == [] then r else r.(current := Some(AddField(CurrentOf(r), name, values)))
    decreases |values|
  {
    hide CleanValues, Fields;
    if values == [] {
      NoFields(r, name);
    } else {
      var v, rest := values[0], values[1..];
      assert values == [v] + rest;
      ReadField(r, name, v, rest);
      var r1 := Read(r, DirectiveOf(name, v));
      assert r1 == r.(current := Some(AddField(CurrentOf(r), name, [v])));
      hide Read, ReadAll;
      ReadFields(r1, name, rest);
      AddFieldTwice(CurrentOf(r), name, [v], rest);
      if rest == [] {
        assert [v] == values;
      }
    }
  }

  lemma NoFields(r: Reader, name: string)
    ensures ReadAll(r, Fields(name, [])) == r
  {
    assert Fields(name, []) == [];
  }

  lemma AddFieldTwice(g: Group, name: string, a: seq<string>, b: seq<string>)
    ensures AddField(AddField(g, name, a), name, b) == AddField(g, name, a + b)
  {
    assert g.agents + a + b == g.agents + (a + b);
    assert g.allow + a + b == g.allow + (a + b);
    assert g.disallow + a + b == g.disallow + (a + b);
  }

  lemma ReadRules(r: Reader, g: Group)
    requires CleanGroup(g) && CurrentOf(r) == Group(g.agents, [], []) && (r.current.Some? || HasRules(g))
    ensures ReadAll(r, Fields("allow", g.allow) + Fields("disallow", g.disallow)) == r.(current := Some(g))
  {
    hide ReadAll, Fields, CleanValues;
    assert [] + g.allow == g.allow && [] + g.disallow == g.disallow;
    ReadAppend(r, Fields("allow", g.allow), Fields("disallow", g.disallow));
    ReadFields(r, "allow", g.allow);
    var r2 := ReadAll(r, Fields("allow", g.allow));
    assert CurrentOf(r2) == Group(g.agents, g.allow, []);
    ReadFields(r2, "disallow", g.disallow);
  }

  /** A printed group is read as a group of its own, and the one before it is closed. */
  lemma ReadGroup(r: Reader, g: Group)
    requires CleanGroup(g) && (g.agents != [] || HasRules(g))
    requires r.current.Some? ==> HasRules(r.current.value) && g.agents != []
    ensures ReadAll(r, GroupLines(g)) == Reader(GroupsOf(r), Some(g), r.sitemaps)
  {
    hide ReadAll, Fields, CleanValues;
    var agents, allows, disallows := Fields("user-agent", g.agents), Fields("allow", g.allow), Fields("disallow", g.disallow);
    assert GroupLines(g) == agents + (allows + disallows);
    ReadAppend(r, agents, allows + disallows);
    ReadAgents(r, g.agents);
    ReadRules(ReadAll(r, agents), g);
  }

  lemma ReadAgents(r: Reader, agents: seq<string>)
    requires CleanValues("user-agent", agents)
    requires r.current.Some? ==> HasRules(r.current.value) && agents != []
    ensures ReadAll(r, Fields("user-agent", agents))
            == if agents == [] then r else Reader(GroupsOf(r), Some(Group(agents, [], [])), r.sitemaps)
  {
    hide CleanValues, Fields;
    if agents == [] {
      NoFields(r, "user-agent");
    } else {
      var v, rest := agents[0], agents[1..];
      assert agents == [v] + rest;
      ReadField(r, "user-agent", v, rest);
      var r1 := Read(r, Agent(v));
      assert [] + [v] == [v];
      assert r1 == Reader(GroupsOf(r), Some(Group([v], [], [])), r.sitemaps);
      hide Read, ReadAll, GroupsOf;
      ReadFields(r1, "user-agent", rest);
      if rest == [] {
        assert [v] == agents;
      }
    }
  }

  /** Groups that can be read after what the reader holds. */
  ghost predicate Follow(r: Reader, groups: seq<Group>) {
    && (groups != [] && r.current.Some? ==> HasRules(r.current.value) && groups[0].agents != [])
    && (forall i :: 0 < i < |groups| ==> groups[i].agents != [])
    && (forall i :: 0 <= i < |groups| - 1 ==> HasRules(groups[i]))
    && (forall i :: 0 <= i < |groups| ==> CleanGroup(groups[i]) && (groups[i].agents != [] || HasRules(groups[i])))
  }

  lemma FollowOn(r: Reader, r1: Reader, groups: seq<Group>)
    requires Follow(r, groups) && groups != [] && r1.current == Some(groups[0])
    ensures Follow(r1, groups[1..])
  {
    hide CleanGroup, HasRules;
    var rest := groups[1..];
    assert forall i :: 0 <= i < |rest| ==> rest[i] == groups[i + 1];
  }

  lemma ReadFirst(r: Reader, groups: seq<Group>)
    requires Follow(r, groups) && groups != []
    ensures ReadAll(r, AllLines(groups))
            == ReadAll(Reader(GroupsOf(r), Some(groups[0]), r.sitemaps), AllLines(groups[1..]))
  {
    ReadGroup(r, groups[0]);
    ReadAppend(r, GroupLines(groups[0]), AllLines(groups[1..]));
    hide ReadAll, GroupLines, CleanGroup, HasRules;
  }

  lemma MoveFirst(before: seq<Group>, groups: seq<Group>)
    requires groups != []
    ensures before + [groups[0]] + groups[1..] == before + groups
  {
  }

  lemma {:induction false} ReadGroups(r: Reader, groups: seq<Group>)
    requires Follow(r, groups)
    ensures GroupsOf(ReadAll(r, AllLines(groups))) == GroupsOf(r) + groups
    decreases |groups|
  {
    if groups == [] {
      assert GroupsOf(r) + groups == GroupsOf(r);
    } else {
      var r1 := Reader(GroupsOf(r), Some(groups[0]), r.sitemaps);
      ReadFirst(r, groups);
      FollowOn(r, r1, groups);
      ReadGroups(r1, groups[1..]);
      MoveFirst(GroupsOf(r), groups);
    }
    hide Follow, ReadAll, AllLines;
  }

  lemma {:induction false} PrintedLinesAreLines(groups: seq<Group>)
    requires forall i :: 0 <= i < |groups| ==> CleanGroup(groups[i])
    ensures forall i :: 0 <= i < |AllLines(groups)| ==> IsPrintedLine(AllLines(groups)[i])
    decreases |groups|
  {
    hide IsPrintedLine, Fields, CleanValues;
    if groups != [] {
      PrintedLinesAreLines(groups[1..]);
      FieldsAreLines("user-agent", groups[0].agents);
      FieldsAreLines("allow", groups[0].allow);
      FieldsAreLines("disallow", groups[0].disallow);
    }
  }

  lemma FieldsAreLines(name: string, values: seq<string>)
    requires IsName(name) && CleanValues(name, values)
    ensures forall i :: 0 <= i < |Fields(name, values)| ==> IsPrintedLine(Fields(name, values)[i])
  {
    hide Clean, CleanAgent, IsPrintedLine;
    forall i | 0 <= i < |values|
      ensures IsPrintedLine(Fields(name, values)[i])
    {
      PrintedLine(name, values[i]);
    }
  }

  /** Printed groups are read back, exactly when they could have been read in the first place. */
  lemma ParsePrintIff(groups: seq<Group>)
    ensures Parse(Print(groups)) == groups <==> Printable(groups)
  {
    if Printable(groups) {
      PrintableIsRead(groups);
    }
    ParseIsPrintable(Print(groups));
    hide Printable, Parse, Print;
  }

  lemma PrintableIsRead(groups: seq<Group>)
    requires Printable(groups)
    ensures Parse(Print(groups)) == groups
  {
    hide Lines, AllLines, ReadAll, Join, CleanGroup;
    var lines := AllLines(groups);
    PrintedLinesAreLines(groups);
    LinesOfJoin(lines);
    ReadAppend(START, lines, [""]);
    assert Follow(START, groups);
    ReadGroups(START, groups);
    assert [] + groups == groups;
    ReadBlank(ReadAll(START, lines));
  }

  lemma ReadBlank(r: Reader)
    ensures ReadAll(r, [""]) == r
  {
    assert ParseLine("") == Nothing;
    assert ReadAll(Read(r, Nothing), [""][1..]) == r;
  }

  /** Printing the groups of any robots.txt gives a robots.txt with the same groups. */
  lemma PrintPreservesMeaning(text: string)
    ensures Parse(Print(Parse(text))) == Parse(text)
  {
    ParseIsPrintable(text);
    ParsePrintIff(Parse(text));
  }

  // ----- what a line says, however it is written

  /** A text starts to be trimmed at its front: nothing but blanks, or a first other character. */
  lemma {:induction false} TrimStartKeeps(name: string, rest: string)
    requires rest != "" && !IsSpace(rest[0])
    ensures TrimStart(name + rest) == TrimStart(name) + rest
    decreases |name|
  {
    if name == "" {
      assert name + rest == rest;
    } else if IsSpace(name[0]) {
      assert (name + rest)[1..] == name[1..] + rest;
      TrimStartKeeps(name[1..], rest);
    }
  }

  lemma {:induction false} TrimEndKeeps(front: string, value: string)
    requires front != "" && !IsSpace(front[|front| - 1])
    ensures TrimEnd(front + value) == front + TrimEnd(value)
    decreases |value|
  {
    if value == "" {
      assert front + value == front;
    } else if IsSpace(value[|value| - 1]) {
      assert (front + value)[..|front + value| - 1] == front + value[..|value| - 1];
      TrimEndKeeps(front, value[..|value| - 1]);
    }
  }

  lemma {:induction false} TrimStartTwice(s: string)
    ensures TrimStart(TrimStart(s)) == TrimStart(s)
    decreases |s|
  {
    if s != "" && IsSpace(s[0]) {
      TrimStartTwice(s[1..]);
    }
  }

  /** Both ends are trimmed in either order. */
  lemma {:induction false} TrimEndFirst(s: string)
    ensures Trim(TrimEnd(s)) == Trim(s)
    decreases |s|
  {
    EndBlank(s);
    if s != "" && IsSpace(s[|s| - 1]) {
      var rest, c := s[..|s| - 1], s[|s| - 1];
      assert s == rest + [c];
      hide *;
      TrimEndFirst(rest);
      LastBlank(rest, c);
    }
  }

  lemma EndBlank(s: string)
    ensures TrimEnd(s) == if s != "" && IsSpace(s[|s| - 1]) then TrimEnd(s[..|s| - 1]) else s
  {
  }

  lemma {:induction false} LastBlank(s: string, c: char)
    requires IsSpace(c)
    ensures Trim(s + [c]) == Trim(s)
    decreases |s|
  {
    if s == "" {
      assert s + [c] == [c] && [c][1..] == "";
    } else if IsSpace(s[0]) {
      assert (s + [c])[1..] == s[1..] + [c];
      LastBlank(s[1..], c);
    } else {
      assert (s + [c])[..|s|] == s;
    }
  }

  lemma {:induction false} TrimStartLacks(s: string, c: char)
    requires c !in s
    ensures c !in TrimStart(s)
    decreases |s|
  {
    if s != "" && IsSpace(s[0]) {
      TrimStartLacks(s[1..], c);
    }
  }

  /**
   A line is a field name in any case and a value, blanks around either of them and a
   comment after them left out; other fields say nothing.
   */
  lemma LineIsExact(name: string, value: string, comment: string)
    requires ':' !in name && '#' !in name && '#' !in value
    ensures ParseLine(name + ":" + value + "#" + comment) == ParseLine(name + ":" + value)
    ensures var field, v := Lower(Trim(name)), Trim(value);
            ParseLine(name + ":" + value) ==
              if field == "user-agent" then Agent(Lower(v))
              else if field == "allow" then Allow(v)
              else if field == "disallow" then Disallow(v)
              else if field == "sitemap" then Sitemap(v)
              else Nothing
  {
    var raw := name + ":" + value;
    UntilAbsent(raw, '#');
    UntilFirst(raw, '#', comment);
    assert raw + "#" + comment == raw + ['#'] + comment;
    TrimmedLine(name, value);
    FieldOf(TrimStart(name), TrimEnd(value));
    TrimStartLacks(name, ':');
    TrimStartTwice(name);
    TrimEndFirst(value);
    hide TrimStart, TrimEnd, Until, Lower, IsSpace;
  }

  lemma TrimmedLine(name: string, value: string)
    ensures Trim(name + ":" + value) == TrimStart(name) + ":" + TrimEnd(value)
  {
    SpaceFacts();
    var tail, front := ":" + value, TrimStart(name) + ":";
    Regroup(name, ":", value);
    Regroup(TrimStart(name), ":", value);
    assert tail[0] == ':' && front[|front| - 1] == ':';
    hide *;
    TrimStartKeeps(name, tail);
    TrimEndKeeps(front, value);
    TrimOf(name + tail);
  }

  lemma Regroup(a: string, b: string, c: string)
    ensures (a + b) + c == a + (b + c)
  {
  }

  lemma TrimOf(s: string)
    ensures Trim(s) == TrimEnd(TrimStart(s))
  {
  }

  lemma FieldOf(name: string, value: string)
    requires ':' !in name
    ensures ParseField(name + ":" + value) == Classify(Lower(Trim(name)), Trim(value))
  {
    UntilFirst(name, ':', value);
    assert name + [':'] + value == name + ":" + value;
    assert (name + ":" + value)[|name| + 1..] == value;
    hide Until, Trim, Lower, Classify;
  }

  /** A line without a colon before its comment says nothing. */
  lemma NoColonNoField(raw: string)
    requires ':' !in Until(raw, '#')
    ensures ParseLine(raw) == Nothing
  {
    TrimLacks(Until(raw, '#'), ':');
    UntilAbsent(Trim(Until(raw, '#')), ':');
    hide Trim, Until;
  }

  /** The blanks of ECMAScript: white space and line terminators. */
  lemma SpaceIsExact(c: char)
    ensures IsSpace(c) <==> c as int in {
              9, 10, 11, 12, 13, 32, 160, 5760, 8192, 8193, 8194, 8195, 8196, 8197, 8198, 8199, 8200, 8201, 8202,
              8232, 8233, 8239, 8287, 12288, 65279}
  {
  }

  lemma FirstLine(line: string, rest: string)
    requires '\n' !in line
    ensures Lines(line + "\n" + rest)
         == [if line != "" && line[|line| - 1] == '\r' then line[..|line| - 1] else line] + Lines(rest)
  {
    var text := line + "\n" + rest;
    UntilFirst(line, '\n', rest);
    assert line + ['\n'] + rest == text && text[|line| + 1..] == rest;
    hide Until;
  }

  /** Lines end with a line feed, with or without a carriage return; the last line keeps its own. */
  lemma LineEndsAreExact(line: string, rest: string)
    requires '\n' !in line
    ensures Lines((line + "\r") + "\n" + rest) == [line] + Lines(rest)
    ensures line == "" || line[|line| - 1] != '\r' ==> Lines(line + "\n" + rest) == [line] + Lines(rest)
    ensures Lines(line) == [line]
  {
    assert (line + "\r")[..|line|] == line;
    FirstLine(line + "\r", rest);
    FirstLine(line, rest);
    UntilAbsent(line, '\n');
    hide Until;
  }

  /** Capitals of the Latin alphabet become small, everything else stays. */
  lemma LowerIsExact(s: string, i: nat)
    requires i < |s|
    ensures Lower(s)[i] as int == if 65 <= s[i] as int <= 90 then s[i] as int + 32 else s[i] as int
  {
  }

  function SitemapValue(d: Directive): seq<string> {
    if d.Sitemap? && d.value != "" then [d.value] else []
  }

  /** The values of the sitemap lines, in order, wherever they stand. */
  function SitemapLines(lines: seq<string>): seq<string> {
    if lines == [] then [] else SitemapValue(ParseLine(lines[0])) + SitemapLines(lines[1..])
  }

  lemma ReadSitemap(r: Reader, d: Directive)
    ensures Read(r, d).sitemaps == r.sitemaps + SitemapValue(d)
  {
  }

  lemma {:induction false} SitemapsOf(r: Reader, lines: seq<string>)
    ensures ReadAll(r, lines).sitemaps == r.sitemaps + SitemapLines(lines)
    decreases |lines|
  {
    if lines != [] {
      var d, rest := ParseLine(lines[0]), lines[1..];
      ReadSitemap(r, d);
      SitemapsOf(Read(r, d), rest);
      OneLineMore(r, lines);
      hide *;
      Regroup3(r.sitemaps, SitemapValue(d), SitemapLines(rest));
    }
  }

  lemma OneLineMore(r: Reader, lines: seq<string>)
    requires lines != []
    ensures ReadAll(r, lines) == ReadAll(Read(r, ParseLine(lines[0])), lines[1..])
    ensures SitemapLines(lines) == SitemapValue(ParseLine(lines[0])) + SitemapLines(lines[1..])
  {
    hide Read, ParseLine, SitemapValue;
  }

  lemma Regroup3(a: seq<string>, b: seq<string>, c: seq<string>)
    ensures (a + b) + c == a + (b + c)
  {
  }

  lemma SitemapsAreExact(text: string)
    ensures Sitemaps(text) == SitemapLines(Lines(text))
  {
    SitemapsOf(START, Lines(text));
    hide ReadAll, Lines, SitemapLines;
  }

  // ----- parseRobotsGroups

  method ParseRobotsGroups(robots: string) returns (groups: seq<Group>, sitemaps: seq<string>)
    ensures groups == Parse(robots) && sitemaps == Sitemaps(robots)
  {
    hide ParseLine, Lines;
    groups, sitemaps := [], [];
    var current: Option<Group> := None;
    var pendingAgents: seq<string> := [];
    var lines := Lines(robots);
    for i := 0 to |lines|
      invariant ReadAll(Reader(groups, current, sitemaps), lines[i..]) == ReadAll(START, lines)
      invariant current.None? ==> pendingAgents == []
    {
      assert lines[i..][0] == lines[i] && lines[i..][1..] == lines[i + 1..];
      var d := ParseLine(lines[i]);
      ghost var before := Reader(groups, current, sitemaps);
      match d {
        case Agent(value) =>
          if current.Some? && HasRules(current.value) {
            groups := groups + [current.value];
            current := None;
            pendingAgents := [];
          }
          assert [] + [value] == [value];
          pendingAgents := pendingAgents + [value];
          if current.None? {
            current := Some(Group([], [], []));
          }
          current := Some(current.value.(agents := current.value.agents + [value]));
        case Sitemap(value) =>
          if value != "" {
            sitemaps := sitemaps + [value];
          }
        case Allow(value) =>
          if current.None? {
            current := Some(Group(pendingAgents, [], []));
          }
          current := Some(current.value.(allow := current.value.allow + [value]));
          pendingAgents := [];
        case Disallow(value) =>
          if current.None? {
            current := Some(Group(pendingAgents, [], []));
          }
          current := Some(current.value.(disallow := current.value.disallow + [value]));
          pendingAgents := [];
        case Nothing =>
      }
      assert Reader(groups, current, sitemaps) == Read(before, d);
    }
    assert lines[|lines|..] == [];
    if current.Some? {
      groups := groups + [current.value];
    }
  }

  // ----- the group of an agent

  predicate IsAt(s: string, part: string, i: nat) {
    i + |part| <= |s| && s[i..i + |part|] == part
  }

  predicate Includes(s: string, part: string) {
    exists i :: 0 <= i <= |s| && IsAt(s, part, i)
  }

  /** The code matches when either string contains the other; its comment says the agent line is a prefix. */
  datatype Rule = AsCoded | AsDocumented

  predicate LineMatches(rule: Rule, token: string, ua: string) {
    match rule
    case AsCoded => Includes(token, ua) || Includes(ua, token)
    case AsDocumented => ua <= token
  }

  /** Both rules let an agent match the line with its own name. */
  lemma OwnNameMatches(rule: Rule, token: string)
    ensures LineMatches(rule, token, token)
  {
    assert IsAt(token, token, 0);
  }

  /** A named agent line that matches. */
  predicate Candidate(groups: seq<Group>, token: string, rule: Rule, g: int, u: int) {
    && 0 <= g < |groups| && 0 <= u < |groups[g].agents| && groups[g].agents[u] != "*"
    && LineMatches(rule, token, groups[g].agents[u])
  }

  predicate Earlier(g: int, u: int, h: int, v: int) {
    g < h || (g == h && u < v)
  }

  /** The longest matching agent line, the first of equals. */
  ghost predicate IsBest(groups: seq<Group>, token: string, rule: Rule, g: int, u: int) {
    && Candidate(groups, token, rule, g, u)
    && forall h, v :: Candidate(groups, token, rule, h, v) && (h, v) != (g, u) ==>
         |groups[h].agents[v]| < |groups[g].agents[u]|
         || (|groups[h].agents[v]| == |groups[g].agents[u]| && Earlier(g, u, h, v))
  }

  predicate HasStar(g: Group) {
    exists u :: 0 <= u < |g.agents| && g.agents[u] == "*"
  }

  predicate IsFirstStar(groups: seq<Group>, g: int) {
    0 <= g < |groups| && HasStar(groups[g]) && forall h :: 0 <= h < g ==> !HasStar(groups[h])
  }

  ghost predicate IsChosen(groups: seq<Group>, token: string, rule: Rule, chosen: Option<Group>) {
    if exists g, u :: Candidate(groups, token, rule, g, u) then
      chosen.Some? && exists g, u :: IsBest(groups, token, rule, g, u) && chosen.value == groups[g]
    else if exists g :: 0 <= g < |groups| && HasStar(groups[g]) then
      chosen.Some? && exists g :: IsFirstStar(groups, g) && chosen.value == groups[g]
    else chosen.None?
  }

  /** The best agent line among those before line `u` of group `g`. */
  ghost predicate BestSoFar(groups: seq<Group>, token: string, rule: Rule, g: int, u: int, best: Option<(int, int)>) {
    match best
    case None => forall h, v :: Candidate(groups, token, rule, h, v) ==> !Earlier(h, v, g, u)
    case Some(b) =>
      && Candidate(groups, token, rule, b.0, b.1) && Earlier(b.0, b.1, g, u)
      && forall h, v :: Candidate(groups, token, rule, h, v) && Earlier(h, v, g, u) && (h, v) != b ==>
           |groups[h].agents[v]| < |groups[b.0].agents[b.1]|
           || (|groups[h].agents[v]| == |groups[b.0].agents[b.1]| && Earlier(b.0, b.1, h, v))
  }

  method FindGroup(groups: seq<Group>, token: string) returns (chosen: Option<Group>)
    ensures IsChosen(groups, token, AsCoded, chosen)
  {
    hide Includes;
    var best: Option<Group> := None;
    var bestLen: int := -1;
    var star: Option<Group> := None;
    ghost var at: Option<(int, int)> := None;
    ghost var starAt: Option<int> := None;
    for g := 0 to |groups|
      invariant BestSoFar(groups, token, AsCoded, g, 0, at)
      invariant at.None? ==> best.None? && bestLen == -1
      invariant at.Some? ==> best == Some(groups[at.value.0]) && bestLen == |groups[at.value.0].agents[at.value.1]|
      invariant StarSoFar(groups, g, 0, starAt) && star == (if starAt.Some? then Some(groups[starAt.value]) else None)
    {
      var group := groups[g];
      for u := 0 to |group.agents|
        invariant BestSoFar(groups, token, AsCoded, g, u, at)
        invariant at.None? ==> best.None? && bestLen == -1
        invariant at.Some? ==> best == Some(groups[at.value.0]) && bestLen == |groups[at.value.0].agents[at.value.1]|
        invariant StarSoFar(groups, g, u, starAt) && star == (if starAt.Some? then Some(groups[starAt.value]) else None)
      {
        var ua := group.agents[u];
        NextLine(groups, token, AsCoded, g, u, at);
        NextStar(groups, g, u, starAt);
        if ua == "*" {
          star := if star.Some? then star else Some(group);
          starAt := if starAt.Some? then starAt else Some(g);
        } else if Includes(token, ua) || Includes(ua, token) {
          if |ua| > bestLen {
            best := Some(group);
            bestLen := |ua|;
            at := Some((g, u));
          }
        }
      }
      NextGroup(groups, token, AsCoded, g, at);
      NextStarGroup(groups, g, starAt);
    }
    chosen := if best.Some? then best else star;
    Conclude(groups, token, AsCoded, at, starAt);
  }

  predicate IsStar(groups: seq<Group>, g: int, u: int) {
    0 <= g < |groups| && 0 <= u < |groups[g].agents| && groups[g].agents[u] == "*"
  }

  /** The first group with a star line, among the lines before line `u` of group `g`. */
  ghost predicate StarSoFar(groups: seq<Group>, g: int, u: int, first: Option<int>) {
    match first
    case None => forall h, v :: IsStar(groups, h, v) ==> !Earlier(h, v, g, u)
    case Some(f) => 0 <= f < |groups| && HasStar(groups[f]) && forall h, v :: IsStar(groups, h, v) ==> f <= h
  }

  lemma NextStar(groups: seq<Group>, g: int, u: int, first: Option<int>)
    requires 0 <= g < |groups| && 0 <= u < |groups[g].agents| && StarSoFar(groups, g, u, first)
    ensures StarSoFar(groups, g, u + 1, if IsStar(groups, g, u) && first.None? then Some(g) else first)
  {
    assert IsStar(groups, g, u) ==> HasStar(groups[g]);
  }

  lemma NextStarGroup(groups: seq<Group>, g: int, first: Option<int>)
    requires 0 <= g < |groups| && StarSoFar(groups, g, |groups[g].agents|, first)
    ensures StarSoFar(groups, g + 1, 0, first)
  {
    assert forall h, v :: IsStar(groups, h, v) && Earlier(h, v, g + 1, 0) ==> Earlier(h, v, g, |groups[g].agents|);
  }

  lemma NextLine(groups: seq<Group>, token: string, rule: Rule, g: int, u: int, best: Option<(int, int)>)
    requires 0 <= g < |groups| && 0 <= u < |groups[g].agents| && BestSoFar(groups, token, rule, g, u, best)
    ensures !Candidate(groups, token, rule, g, u) ==> BestSoFar(groups, token, rule, g, u + 1, best)
    ensures Candidate(groups, token, rule, g, u) ==>
              (if best.Some? && |groups[best.value.0].agents[best.value.1]| >= |groups[g].agents[u]| then
                 BestSoFar(groups, token, rule, g, u + 1, best)
               else BestSoFar(groups, token, rule, g, u + 1, Some((g, u))))
  {
    hide LineMatches;
    assert forall h, v :: Earlier(h, v, g, u + 1) <==> Earlier(h, v, g, u) || (h, v) == (g, u);
  }

  lemma NextGroup(groups: seq<Group>, token: string, rule: Rule, g: int, best: Option<(int, int)>)
    requires 0 <= g < |groups| && BestSoFar(groups, token, rule, g, |groups[g].agents|, best)
    ensures BestSoFar(groups, token, rule, g + 1, 0, best)
  {
    hide LineMatches;
    assert forall h, v :: Candidate(groups, token, rule, h, v) && Earlier(h, v, g + 1, 0) ==> Earlier(h, v, g, |groups[g].agents|);
  }

  lemma Conclude(groups: seq<Group>, token: string, rule: Rule, at: Option<(int, int)>, starAt: Option<int>)
    requires BestSoFar(groups, token, rule, |groups|, 0, at) && StarSoFar(groups, |groups|, 0, starAt)
    ensures IsChosen(groups, token, rule, if at.Some? then Some(groups[at.value.0])
                                    else if starAt.Some? then Some(groups[starAt.value]) else None)
  {
    hide LineMatches;
    assert forall h, v :: Candidate(groups, token, rule, h, v) ==> Earlier(h, v, |groups|, 0);
    if at.Some? {
      assert IsBest(groups, token, rule, at.value.0, at.value.1);
    } else {
      forall h | 0 <= h < |groups| && HasStar(groups[h])
        ensures starAt.Some? && starAt.value <= h
      {
        var u :| 0 <= u < |groups[h].agents| && groups[h].agents[u] == "*";
        assert IsStar(groups, h, u) && Earlier(h, u, |groups|, 0);
      }
      assert starAt.Some? ==> IsFirstStar(groups, starAt.value);
    }
  }

  datatype Rules = Rules(allow: seq<string>, disallow: seq<string>, sitemaps: seq<string>)

  method RobotsRulesForAgent(robots: string, userAgentToken: string) returns (rules: Rules)
    ensures rules.sitemaps == Sitemaps(robots)
    ensures exists chosen: Option<Group> :: IsChosen(Parse(robots), Lower(userAgentToken), AsCoded, chosen)
              && (if chosen.Some? then rules.allow == chosen.value.allow && rules.disallow == chosen.value.disallow
                  else rules.allow == [] && rules.disallow == [])
  {
    hide IsChosen, Parse, Sitemaps, Lower;
    var groups, sitemaps := ParseRobotsGroups(robots);
    var chosen := FindGroup(groups, Lower(userAgentToken));
    rules := if chosen.Some? then Rules(chosen.value.allow, chosen.value.disallow, sitemaps) else Rules([], [], sitemaps);
  }

  // ----- where the code follows its comment

  /** The best line of a rule, if any line matches. */
  ghost predicate BestLine(groups: seq<Group>, token: string, rule: Rule, at: Option<(int, int)>) {
    match at
    case None => forall g, u :: !Candidate(groups, token, rule, g, u)
    case Some(b) => IsBest(groups, token, rule, b.0, b.1)
  }

  lemma FindBest(groups: seq<Group>, token: string, rule: Rule) returns (at: Option<(int, int)>)
    ensures BestLine(groups, token, rule, at)
  {
    hide LineMatches;
    at := None;
    for g := 0 to |groups|
      invariant BestSoFar(groups, token, rule, g, 0, at)
    {
      for u := 0 to |groups[g].agents|
        invariant BestSoFar(groups, token, rule, g, u, at)
      {
        NextLine(groups, token, rule, g, u, at);
        if Candidate(groups, token, rule, g, u)
           && (at.None? || |groups[at.value.0].agents[at.value.1]| < |groups[g].agents[u]|) {
          at := Some((g, u));
        }
      }
      NextGroup(groups, token, rule, g, at);
    }
    assert forall h, v :: Candidate(groups, token, rule, h, v) ==> Earlier(h, v, |groups|, 0);
  }

  /** Shorter than the line at `b`, or as long and later. */
  predicate Behind(groups: seq<Group>, g: int, u: int, b: (int, int))
    requires 0 <= g < |groups| && 0 <= u < |groups[g].agents|
    requires 0 <= b.0 < |groups| && 0 <= b.1 < |groups[b.0].agents|
  {
    |groups[g].agents[u]| < |groups[b.0].agents[b.1]|
    || (|groups[g].agents[u]| == |groups[b.0].agents[b.1]| && Earlier(b.0, b.1, g, u))
  }

  lemma PrefixIsIncluded(groups: seq<Group>, token: string, g: int, u: int)
    requires Candidate(groups, token, AsDocumented, g, u)
    ensures Candidate(groups, token, AsCoded, g, u)
  {
    assert IsAt(token, groups[g].agents[u], 0);
  }

  lemma BestIsUnique(groups: seq<Group>, token: string, rule: Rule, g: int, u: int, h: int, v: int)
    requires IsBest(groups, token, rule, g, u) && IsBest(groups, token, rule, h, v)
    ensures (g, u) == (h, v)
  {
    hide LineMatches;
  }

  /**
   The code chooses the documented line exactly when every line that matches without being
   a prefix is shorter than the longest prefix, or as long and later.
   */
  lemma DocumentedIffNoLongerMatch(groups: seq<Group>, token: string, coded: Option<(int, int)>, documented: Option<(int, int)>)
    requires BestLine(groups, token, AsCoded, coded) && BestLine(groups, token, AsDocumented, documented)
    ensures coded == documented <==>
              forall g, u :: Candidate(groups, token, AsCoded, g, u) && !Candidate(groups, token, AsDocumented, g, u) ==>
                documented.Some? && Behind(groups, g, u, documented.value)
  {
    forall g, u | Candidate(groups, token, AsDocumented, g, u)
      ensures Candidate(groups, token, AsCoded, g, u)
    {
      PrefixIsIncluded(groups, token, g, u);
    }
    hide LineMatches;
    if documented.Some? {
      var d := documented.value;
      if forall g, u :: Candidate(groups, token, AsCoded, g, u) && !Candidate(groups, token, AsDocumented, g, u) ==> Behind(groups, g, u, d) {
        assert IsBest(groups, token, AsCoded, d.0, d.1);
        BestIsUnique(groups, token, AsCoded, coded.value.0, coded.value.1, d.0, d.1);
      }
    }
  }

  lemma ChosenIsBest(groups: seq<Group>, token: string, rule: Rule, b: (int, int), chosen: Option<Group>)
    requires IsBest(groups, token, rule, b.0, b.1)
    ensures IsChosen(groups, token, rule, chosen) <==> chosen == Some(groups[b.0])
  {
    hide LineMatches, HasStar;
    assert Candidate(groups, token, rule, b.0, b.1);
    forall g, u | IsBest(groups, token, rule, g, u)
      ensures g == b.0
    {
      BestIsUnique(groups, token, rule, g, u, b.0, b.1);
    }
  }

  /** Which group it is: that of the best line, else the first star group, else none. */
  ghost predicate ChosenAt(groups: seq<Group>, token: string, rule: Rule, at: Option<int>) {
    if exists g, u :: Candidate(groups, token, rule, g, u) then
      at.Some? && exists u :: IsBest(groups, token, rule, at.value, u)
    else if exists g :: 0 <= g < |groups| && HasStar(groups[g]) then at.Some? && IsFirstStar(groups, at.value)
    else at.None?
  }

  ghost predicate GroupAt(groups: seq<Group>, at: Option<int>, group: Option<Group>) {
    match at
    case None => group.None?
    case Some(g) => 0 <= g < |groups| && group == Some(groups[g])
  }

  lemma FindChosen(groups: seq<Group>, token: string, rule: Rule) returns (best: Option<(int, int)>, at: Option<int>)
    ensures BestLine(groups, token, rule, best) && ChosenAt(groups, token, rule, at)
    ensures best.Some? ==> at == Some(best.value.0)
  {
    best := FindBest(groups, token, rule);
    hide LineMatches, HasStar;
    if best.Some? {
      assert Candidate(groups, token, rule, best.value.0, best.value.1);
      return best, Some(best.value.0);
    }
    for g := 0 to |groups|
      invariant forall h :: 0 <= h < g ==> !HasStar(groups[h])
    {
      if HasStar(groups[g]) {
        return best, Some(g);
      }
    }
    at := None;
  }

  lemma ChosenAtIsUnique(groups: seq<Group>, token: string, rule: Rule, a: Option<int>, b: Option<int>)
    requires ChosenAt(groups, token, rule, a) && ChosenAt(groups, token, rule, b)
    ensures a == b
  {
    hide LineMatches, HasStar, IsBest;
    if g, u :| Candidate(groups, token, rule, g, u) {
      var v :| IsBest(groups, token, rule, a.value, v);
      var w :| IsBest(groups, token, rule, b.value, w);
      BestIsUnique(groups, token, rule, a.value, v, b.value, w);
    }
  }

  /** The chosen group is the one at that index. */
  lemma ChosenIsThere(groups: seq<Group>, token: string, rule: Rule, at: Option<int>, chosen: Option<Group>)
    requires ChosenAt(groups, token, rule, at)
    ensures IsChosen(groups, token, rule, chosen) <==> GroupAt(groups, at, chosen)
  {
    hide LineMatches, HasStar;
    if g, u :| Candidate(groups, token, rule, g, u) {
      var v :| IsBest(groups, token, rule, at.value, v);
      ChosenIsBest(groups, token, rule, (at.value, v), chosen);
    }
  }

  /** Some line of the group matches, and the line is behind it. */
  ghost predicate Outdone(groups: seq<Group>, token: string, g: int, u: int, at: Option<int>)
    requires 0 <= g < |groups| && 0 <= u < |groups[g].agents|
  {
    at.Some? && exists v :: Candidate(groups, token, AsCoded, at.value, v) && Behind(groups, g, u, (at.value, v))
  }

  /** Every line outside the group that matches without being a prefix is behind a matching line of the group. */
  ghost predicate NothingElseLeads(groups: seq<Group>, token: string, at: Option<int>) {
    forall g, u :: Some(g) != at && Candidate(groups, token, AsCoded, g, u) && !Candidate(groups, token, AsDocumented, g, u) ==>
                     Outdone(groups, token, g, u, at)
  }

  /**
   For every text and agent: the code applies the documented group, be it that of a line,
   the star group or none, exactly when nothing else leads.
   */
  lemma CodedAgainstDocumented(groups: seq<Group>, token: string) returns (coded: Option<int>, documented: Option<int>)
    ensures ChosenAt(groups, token, AsCoded, coded) && ChosenAt(groups, token, AsDocumented, documented)
    ensures forall chosen :: IsChosen(groups, token, AsCoded, chosen) <==> GroupAt(groups, coded, chosen)
    ensures forall chosen :: IsChosen(groups, token, AsDocumented, chosen) <==> GroupAt(groups, documented, chosen)
    ensures coded == documented <==> NothingElseLeads(groups, token, documented)
  {
    hide *;
    var best, bestPrefix;
    best, coded := FindChosen(groups, token, AsCoded);
    bestPrefix, documented := FindChosen(groups, token, AsDocumented);
    forall chosen: Option<Group>
      ensures IsChosen(groups, token, AsCoded, chosen) <==> GroupAt(groups, coded, chosen)
      ensures IsChosen(groups, token, AsDocumented, chosen) <==> GroupAt(groups, documented, chosen)
    {
      ChosenIsThere(groups, token, AsCoded, coded, chosen);
      ChosenIsThere(groups, token, AsDocumented, documented, chosen);
    }
    SameGroupIff(groups, token, best, bestPrefix, coded, documented);
  }

  lemma SameGroupIff(groups: seq<Group>, token: string, best: Option<(int, int)>, bestPrefix: Option<(int, int)>,
                     coded: Option<int>, documented: Option<int>)
    requires BestLine(groups, token, AsCoded, best) && ChosenAt(groups, token, AsCoded, coded)
    requires BestLine(groups, token, AsDocumented, bestPrefix) && ChosenAt(groups, token, AsDocumented, documented)
    requires best.Some? ==> coded == Some(best.value.0)
    requires bestPrefix.Some? ==> documented == Some(bestPrefix.value.0)
    ensures coded == documented <==> NothingElseLeads(groups, token, documented)
  {
    forall g, u | Candidate(groups, token, AsDocumented, g, u)
      ensures Candidate(groups, token, AsCoded, g, u)
    {
      PrefixIsIncluded(groups, token, g, u);
    }
    hide LineMatches, HasStar;
    if best.None? {
      assert ChosenAt(groups, token, AsDocumented, coded);
      ChosenAtIsUnique(groups, token, AsDocumented, coded, documented);
    } else {
      var b := best.value;
      if coded == documented {
        assert forall g, u :: Some(g) != documented && Candidate(groups, token, AsCoded, g, u) ==> Behind(groups, g, u, b);
      }
      assert NothingElseLeads(groups, token, documented) && Some(b.0) != documented && !Candidate(groups, token, AsDocumented, b.0, b.1) ==>
          Outdone(groups, token, b.0, b.1, documented);
    }
  }

  /** Any name that the agent line is in, but does not begin with, is given rules the comment does not give it. */
  lemma MiddleMatchDiffers(g: Group, ua: string, token: string)
    requires g.agents == [ua] && ua != "*" && Includes(token, ua) && !(ua <= token)
    ensures IsChosen([g], token, AsCoded, Some(g)) && IsChosen([g], token, AsDocumented, None)
  {
    hide Includes;
    assert Candidate([g], token, AsCoded, 0, 0);
    assert IsBest([g], token, AsCoded, 0, 0);
    ChosenIsBest([g], token, AsCoded, (0, 0), Some(g));
    assert !HasStar(g);
  }

  const BOT_GROUPS: seq<Group> := [Group(["bot"], [], ["/"])]

  /** A robots.txt on which the two differ: `bot` is in the middle of the name, so the code applies its rules. */
  lemma ContainmentIsNotPrefix()
    ensures Parse(Print(BOT_GROUPS)) == BOT_GROUPS
    ensures IsChosen(BOT_GROUPS, "gptbot", AsCoded, Some(BOT_GROUPS[0]))
    ensures IsChosen(BOT_GROUPS, "gptbot", AsDocumented, None)
  {
    BotGroupsPrint();
    BotInGptBot();
    hide *;
    MiddleMatchDiffers(BOT_GROUPS[0], "bot", "gptbot");
  }

  lemma BotInGptBot()
    ensures Includes("gptbot", "bot") && !("bot" <= "gptbot") && "bot" != "*"
    ensures BOT_GROUPS == [BOT_GROUPS[0]] && BOT_GROUPS[0].agents == ["bot"]
  {
    assert "gptbot"[3..6] == "bot" && IsAt("gptbot", "bot", 3);
    assert "bot"[0] != "gptbot"[0];
  }

  lemma BotGroupsPrint()
    ensures Parse(Print(BOT_GROUPS)) == BOT_GROUPS
  {
    assert Lower("bot") == "bot";
    assert CleanValues("user-agent", ["bot"]) && CleanValues("allow", []) && CleanValues("disallow", ["/"]);
    assert CleanGroup(BOT_GROUPS[0]);
    assert Printable(BOT_GROUPS);
    hide Parse, Print, Printable;
    ParsePrintIff(BOT_GROUPS);
  }

  // ----- may the path be fetched

  /** An empty pattern matches no path, whatever others do. */
  lemma EmptyNeverMatches(path: string, pattern: string, matching: Matching)
    ensures Matches(path, pattern, matching) <==> |pattern| > 0 && matching(path, pattern)
  {
  }

  /** How a pattern matches a path is left open; the empty pattern matches nothing. */
  type Matching = (string, string) -> bool

  predicate Matches(path: string, pattern: string, matching: Matching) {
    pattern != "" && matching(path, pattern)
  }

  /** Length of the longest pattern that matches, or -1. */
  function LongestMatch(patterns: seq<string>, path: string, matching: Matching): int {
    if patterns == [] then -1
    else
      var last := patterns[|patterns| - 1];
      var before := LongestMatch(patterns[..|patterns| - 1], path, matching);
      if Matches(path, last, matching) && |last| > before then |last| else before
  }

  ghost predicate Allowed(rules: Rules, path: string, matching: Matching) {
    "" in rules.disallow || LongestMatch(rules.allow, path, matching) >= LongestMatch(rules.disallow, path, matching)
  }

  /** The longest match wins, an allow wins a tie, and an empty disallow allows everything. */
  method IsPathAllowed(rules: Rules, path: string, matching: Matching) returns (allowed: bool)
    ensures allowed <==> Allowed(rules, path, matching)
  {
    var bestLen: int := -1;
    var bestAllow := true;
    for i := 0 to |rules.disallow|
      invariant bestLen == LongestMatch(rules.disallow[..i], path, matching) >= -1
      invariant bestAllow <==> bestLen == -1
      invariant "" !in rules.disallow[..i]
    {
      var pat := rules.disallow[i];
      assert rules.disallow[..i + 1][..i] == rules.disallow[..i];
      if pat == "" {
        return true;
      }
      if Matches(path, pat, matching) {
        if |pat| > bestLen {
          bestLen := |pat|;
          bestAllow := false;
        }
      }
    }
    assert rules.disallow[..|rules.disallow|] == rules.disallow;
    ghost var longest := bestLen;
    for i := 0 to |rules.allow|
      invariant longest == LongestMatch(rules.disallow, path, matching) >= -1
      invariant var a := LongestMatch(rules.allow[..i], path, matching);
                bestLen == (if a > longest then a else longest) && (bestAllow <==> a >= longest)
    {
      var pat := rules.allow[i];
      assert rules.allow[..i + 1][..i] == rules.allow[..i];
      if Matches(path, pat, matching) {
        if |pat| > bestLen || (|pat| == bestLen && !bestAllow) {
          bestLen := |pat|;
          bestAllow := true;
        }
      }
    }
    assert rules.allow[..|rules.allow|] == rules.allow;
    return bestAllow;
  }

  lemma {:induction false} LongestMatchIs(patterns: seq<string>, path: string, matching: Matching)
    ensures forall i :: 0 <= i < |patterns| && Matches(path, patterns[i], matching) ==>
              |patterns[i]| <= LongestMatch(patterns, path, matching)
    ensures LongestMatch(patterns, path, matching) == -1
            || exists i :: 0 <= i < |patterns| && Matches(path, patterns[i], matching)
                           && |patterns[i]| == LongestMatch(patterns, path, matching)
    decreases |patterns|
  {
    if patterns != [] {
      LongestMatchIs(patterns[..|patterns| - 1], path, matching);
      assert forall i :: 0 <= i < |patterns| - 1 ==> patterns[..|patterns| - 1][i] == patterns[i];
    }
  }

  lemma LongestMatchBySet(a: seq<string>, b: seq<string>, path: string, matching: Matching)
    requires forall p :: p in a ==> p in b
    ensures LongestMatch(a, path, matching) <= LongestMatch(b, path, matching)
  {
    LongestMatchIs(a, path, matching);
    LongestMatchIs(b, path, matching);
    AtLeastMinusOne(b, path, matching);
    if i :| 0 <= i < |a| && Matches(path, a[i], matching) && |a[i]| == LongestMatch(a, path, matching) {
      assert a[i] in b;
    }
  }

  lemma {:induction false} AtLeastMinusOne(patterns: seq<string>, path: string, matching: Matching)
    ensures LongestMatch(patterns, path, matching) >= -1
    decreases |patterns|
  {
    if patterns != [] {
      AtLeastMinusOne(patterns[..|patterns| - 1], path, matching);
    }
  }

  /** Only which rules there are matters, not their order or repetition. */
  lemma OrderIsIrrelevant(r: Rules, s: Rules, path: string, matching: Matching)
    requires forall p :: p in r.allow <==> p in s.allow
    requires forall p :: p in r.disallow <==> p in s.disallow
    ensures Allowed(r, path, matching) <==> Allowed(s, path, matching)
  {
    LongestMatchBySet(r.allow, s.allow, path, matching);
    LongestMatchBySet(s.allow, r.allow, path, matching);
    LongestMatchBySet(r.disallow, s.disallow, path, matching);
    LongestMatchBySet(s.disallow, r.disallow, path, matching);
  }
}
