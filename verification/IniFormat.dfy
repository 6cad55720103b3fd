/** The text form of a configuration: how it is read, how it is written, and when
    reading gives back what was written. */
module IniFormat {

  datatype Entry = Entry(name: string, value: string)

  datatype Section = Section(name: string, entries: seq<Entry>)

  type Config = seq<Section>

  // --------------------------------------------------------------- lookup

  /** The first section with a name, or the number of sections. */
  function FindKey(c: Config, key: string): (k: nat)
    ensures k <= |c|
    ensures k < |c| ==> c[k].name == key
    ensures forall i :: 0 <= i < k ==> c[i].name != key
  {
    if c == [] then 0 else if c[0].name == key then 0 else 1 + FindKey(c[1..], key)
  }

  function FindValue(entries: seq<Entry>, name: string): (v: nat)
    ensures v <= |entries|
    ensures v < |entries| ==> entries[v].name == name
    ensures forall i :: 0 <= i < v ==> entries[i].name != name
  {
    if entries == [] then 0 else if entries[0].name == name then 0 else 1 + FindValue(entries[1..], name)
  }

  function Get(c: Config, key: string, name: string, default: string): string {
    var k := FindKey(c, key);
    if k == |c| then default
    else
      var v := FindValue(c[k].entries, name);
      if v == |c[k].entries| then default else c[k].entries[v].value
  }

  function SetEntry(entries: seq<Entry>, name: string, value: string): seq<Entry> {
    var v := FindValue(entries, name);
    if v == |entries| then entries + [Entry(name, value)] else entries[v := Entry(name, value)]
  }

  function Ensured(c: Config, key: string): (c': Config)
    ensures FindKey(c, key) < |c'|
  {
    if FindKey(c, key) == |c| then c + [Section(key, [])] else c
  }

  function Add(c: Config, key: string, name: string, value: string): Config {
    var (k, c') := (FindKey(c, key), Ensured(c, key));
    c'[k := Section(c'[k].name, SetEntry(c'[k].entries, name, value))]
  }

  lemma FirstValueIs(entries: seq<Entry>, name: string, v: nat)
    requires v <= |entries| && (v < |entries| ==> entries[v].name == name)
    requires forall i :: 0 <= i < v ==> entries[i].name != name
    ensures FindValue(entries, name) == v
  {
    if v > 0 {
      FirstValueIs(entries[1..], name, v - 1);
    }
  }

  lemma FirstKeyIs(c: Config, key: string, k: nat)
    requires k <= |c| && (k < |c| ==> c[k].name == key)
    requires forall i :: 0 <= i < k ==> c[i].name != key
    ensures FindKey(c, key) == k
  {
    if k > 0 {
      FirstKeyIs(c[1..], key, k - 1);
    }
  }

  lemma SetThenFind(entries: seq<Entry>, name: string, value: string, other: string)
    ensures var (after, v) := (SetEntry(entries, name, value), FindValue(entries, other));
            FindValue(after, other) == if other == name then FindValue(entries, name)
                                       else if v == |entries| then |after| else v
  {
    var (after, v) := (SetEntry(entries, name, value), FindValue(entries, other));
    FirstValueIs(after, other, if other == name then v else if v == |entries| then |after| else v);
  }

  lemma AddFinds(c: Config, key: string, name: string, value: string, other: string)
    ensures var c' := Add(c, key, name, value);
            FindKey(c', other) == if other == key then FindKey(c, key)
                                  else if FindKey(c, other) == |c| then |c'| else FindKey(c, other)
  {
    var (c', k) := (Add(c, key, name, value), FindKey(c, other));
    FirstKeyIs(c', other, if other == key then k else if k == |c| then |c'| else k);
  }

  /** Adding sets the one value and disturbs no other. */
  lemma AddThenGet(c: Config, key: string, name: string, value: string,
                   key': string, name': string, default: string)
    ensures Get(Add(c, key, name, value), key', name', default)
         == if key' == key && name' == name then value else Get(c, key', name', default)
  {
    AddFinds(c, key, name, value, key');
    if key' == key {
      SetThenFind(Ensured(c, key)[FindKey(c, key)].entries, name, value, name');
    }
  }

  // --------------------------------------------------------------- reading

  datatype Reader = Reader(config: Config, key: string, stopped: bool)

  predicate Printable(ch: char) {
    0x20 <= ch as int <= 0x7E
  }

  predicate Special(ch: char) {
    ch == ';' || ch == '#' || ch == '[' || ch == '='
  }

  /** Position of the first special character, or the length. */
  function FirstSpecial(line: string): (p: nat)
    ensures p <= |line| && (p < |line| ==> Special(line[p]))
    ensures forall i :: 0 <= i < p ==> !Special(line[i])
  {
    if line == "" then 0 else if Special(line[0]) then 0 else 1 + FirstSpecial(line[1..])
  }

  /** One past the last closing bracket, or zero. */
  function AfterLastBracket(line: string): (q: nat)
    ensures q <= |line| && (q > 0 ==> line[q - 1] == ']')
    ensures forall i :: q <= i < |line| ==> line[i] != ']'
    decreases |line|
  {
    if line == "" then 0
    else if line[|line| - 1] == ']' then |line|
    else AfterLastBracket(line[..|line| - 1])
  }

  function StripReturn(line: string): string {
    if line != "" && line[|line| - 1] == '\r' then line[..|line| - 1] else line
  }

  /** A line that is not empty but starts with nothing printable ends the reading. */
  function ReadLine(r: Reader, raw: string): Reader {
    if raw == "" then r
    else
      var line := StripReturn(raw);
      if line == "" || !Printable(line[0]) then r.(stopped := true)
      else
        var p := FirstSpecial(line);
        if p == |line| then r
        else if line[p] == '[' then
          var q := AfterLastBracket(line);
          if q > p + 1 then
            var key := line[p + 1..q - 1];
            r.(key := key, config := r.config + [Section(key, [])])
          else r
        else if line[p] == '=' then
          r.(config := Add(r.config, r.key, line[..p], line[p + 1..]))
        else r
  }

  function ReadLines(r: Reader, lines: seq<string>): Reader
    decreases |lines|
  {
    if r.stopped || lines == [] then r else ReadLines(ReadLine(r, lines[0]), lines[1..])
  }

  function IndexOf(text: string, ch: char): (i: nat)
    ensures i <= |text| && (i < |text| ==> text[i] == ch)
    ensures forall j :: 0 <= j < i ==> text[j] != ch
  {
    if text == "" then 0 else if text[0] == ch then 0 else 1 + IndexOf(text[1..], ch)
  }

  /** The lines a text is read as; a last line need not be terminated. */
  function Lines(text: string): (lines: seq<string>)
    decreases |text|
  {
    if text == "" then []
    else
      var i := IndexOf(text, '\n');
      if i == |text| then [text] else [text[..i]] + Lines(text[i + 1..])
  }

  function Start(): Reader { Reader([], "", false) }

  function Read(text: string): Reader {
    ReadLines(Start(), Lines(text))
  }

  // --------------------------------------------------------------- writing

  function EntryLine(e: Entry): string { e.name + "=" + e.value }

  function EntryLines(entries: seq<Entry>): (lines: seq<string>)
    ensures |lines| == |entries|
  {
    seq(|entries|, i requires 0 <= i < |entries| => EntryLine(entries[i]))
  }

  function SectionLines(s: Section): seq<string> {
    ["[" + s.name + "]"] + EntryLines(s.entries) + [""]
  }

  function Body(c: Config): seq<string> {
    if c == [] then [] else SectionLines(c[0]) + Body(c[1..])
  }

  function Printed(title: string, c: Config): seq<string> {
    ["; " + title, ""] + Body(c)
  }

  function Text(lines: seq<string>): string {
    if lines == [] then "" else lines[0] + "\n" + Text(lines[1..])
  }

  function Print(title: string, c: Config): string {
    Text(Printed(title, c))
  }

  // ------------------------------------------------------------ line breaks

  predicate OneLine(s: string) {
    forall i :: 0 <= i < |s| ==> s[i] != '\n'
  }

  lemma FirstBreak(line: string, rest: string)
    requires OneLine(line)
    ensures var text := line + "\n" + rest;
            && IndexOf(text, '\n') == |line| && text != ""
            && text[..|line|] == line && text[|line| + 1..] == rest
  {
    var text := line + "\n" + rest;
    assert text[|line|] == '\n';
    assert forall i :: 0 <= i < |line| ==> text[i] == line[i];
  }

  lemma {:induction false} LinesOfText(lines: seq<string>)
    requires forall k :: 0 <= k < |lines| ==> OneLine(lines[k])
    ensures Lines(Text(lines)) == lines
  {
    if lines != [] {
      FirstBreak(lines[0], Text(lines[1..]));
      LinesOfText(lines[1..]);
    }
  }

  lemma {:induction false} LinesAreLines(text: string)
    ensures forall k :: 0 <= k < |Lines(text)| ==> OneLine(Lines(text)[k])
    decreases |text|
  {
    if text != "" && IndexOf(text, '\n') < |text| {
      LinesAreLines(text[IndexOf(text, '\n') + 1..]);
    }
  }

  predicate Clean(s: Section) {
    && OneLine(s.name)
    && forall v :: 0 <= v < |s.entries| ==> OneLine(s.entries[v].name) && OneLine(s.entries[v].value)
  }

  predicate AllClean(c: Config) {
    forall k :: 0 <= k < |c| ==> Clean(c[k])
  }

  lemma AddClean(c: Config, key: string, name: string, value: string)
    requires AllClean(c) && OneLine(key) && OneLine(name) && OneLine(value)
    ensures AllClean(Add(c, key, name, value))
  {
    var c' := Ensured(c, key);
    assert AllClean(c');
    assert Clean(c'[FindKey(c, key)]);
  }

  lemma ReadLineClean(r: Reader, raw: string)
    requires AllClean(r.config) && OneLine(r.key) && OneLine(raw)
    ensures AllClean(ReadLine(r, raw).config) && OneLine(ReadLine(r, raw).key)
  {
    var line := StripReturn(raw);
    var p := FirstSpecial(line);
    if p < |line| && line[p] == '=' {
      AddClean(r.config, r.key, line[..p], line[p + 1..]);
    } else {
      assert forall key: string :: OneLine(key) ==> Clean(Section(key, []));
    }
  }

  lemma {:induction false} ReadClean(r: Reader, lines: seq<string>)
    requires AllClean(r.config) && OneLine(r.key)
    requires forall k :: 0 <= k < |lines| ==> OneLine(lines[k])
    ensures AllClean(ReadLines(r, lines).config)
    decreases |lines|
  {
    if !r.stopped && lines != [] {
      ReadLineClean(r, lines[0]);
      ReadClean(ReadLine(r, lines[0]), lines[1..]);
    }
  }

  lemma {:induction false} BodyIsLines(c: Config)
    requires AllClean(c)
    ensures forall k :: 0 <= k < |Body(c)| ==> OneLine(Body(c)[k])
  {
    if c != [] {
      BodyIsLines(c[1..]);
      assert Clean(c[0]);
    }
  }

  /** The lines of a printed configuration without line breaks are read as they
      were printed. */
  lemma PrintedIsRead(title: string, c: Config)
    requires OneLine(title) && AllClean(c)
    ensures Read(Print(title, c)) == ReadLines(Start(), Printed(title, c))
  {
    BodyIsLines(c);
    LinesOfText(Printed(title, c));
  }
}
