/** Exactly when a configuration survives being written and read again. */
module IniRoundTrip {

  import opened IniFormat

  // ---------------------------------------------------------- the condition

  predicate GoodName(name: string) {
    && (forall i :: 0 <= i < |name| ==> !Special(name[i]))
    && (name != "" ==> Printable(name[0]))
  }

  predicate GoodValue(value: string) {
    value != "" ==> value[|value| - 1] != '\r'
  }

  predicate GoodEntry(entries: seq<Entry>, v: nat)
    requires v < |entries|
  {
    && GoodName(entries[v].name) && GoodValue(entries[v].value)
    && forall u :: 0 <= u < v ==> entries[u].name != entries[v].name
  }

  /** A section that repeats an earlier name must be empty. */
  predicate GoodSection(c: Config, k: nat)
    requires k < |c|
  {
    && (c[k].entries != [] ==> FindKey(c, c[k].name) == k)
    && forall v :: 0 <= v < |c[k].entries| ==> GoodEntry(c[k].entries, v)
  }

  predicate Representable(c: Config) {
    AllClean(c) && forall k :: 0 <= k < |c| ==> GoodSection(c, k)
  }

  // ------------------------------------------------------- reading one line

  lemma {:induction false} FirstSpecialIs(line: string, p: nat)
    requires p < |line| && Special(line[p]) && forall i :: 0 <= i < p ==> !Special(line[i])
    ensures FirstSpecial(line) == p
  {
    if p > 0 {
      FirstSpecialIs(line[1..], p - 1);
    }
  }

  lemma ReadHeader(r: Reader, title: string)
    ensures ReadLine(r, "; " + title) == r
  {
    var line := StripReturn("; " + title);
    assert line[0] == ';';
    FirstSpecialIs(line, 0);
  }

  lemma ReadSectionLine(r: Reader, name: string)
    ensures ReadLine(r, "[" + name + "]") == Reader(r.config + [Section(name, [])], name, r.stopped)
  {
    var line := "[" + name + "]";
    assert line[0] == '[' && line[|line| - 1] == ']';
    assert StripReturn(line) == line;
    FirstSpecialIs(line, 0);
    assert AfterLastBracket(line) == |line|;
    assert line[1..|line| - 1] == name;
  }

  lemma ReadEntryLine(r: Reader, e: Entry)
    requires GoodName(e.name) && GoodValue(e.value)
    ensures ReadLine(r, EntryLine(e)) == r.(config := Add(r.config, r.key, e.name, e.value))
  {
    var (line, p) := (EntryLine(e), |e.name|);
    assert line[p] == '=' && line[..p] == e.name && line[p + 1..] == e.value;
    assert forall i :: 0 <= i < p ==> line[i] == e.name[i];
    assert e.value != "" ==> line[|line| - 1] == e.value[|e.value| - 1];
    assert StripReturn(line) == line;
    FirstSpecialIs(line, p);
  }

  // ------------------------------------------------------ every kind of line

  predicate NothingSpecial(s: string) {
    forall i :: 0 <= i < |s| ==> s[i] != ';' && s[i] != '#' && s[i] != '[' && s[i] != '='
  }

  /** Reading stops at a line that starts below the blank or above the tilde. */
  lemma StopsIff(r: Reader, raw: string)
    requires !r.stopped
    ensures ReadLine(r, raw).stopped <==> raw != "" && (raw[0] < ' ' || raw[0] > '~')
  {
  }

  /** A comment is ignored, alone on its line or behind something else. */
  lemma CommentIsIgnored(r: Reader, before: string, sign: char, comment: string)
    requires NothingSpecial(before) && (before == "" || ' ' <= before[0] <= '~')
    requires sign == ';' || sign == '#'
    ensures ReadLine(r, before + [sign] + comment) == r
  {
    var raw := before + [sign] + comment;
    var line := StripReturn(raw);
    assert raw[|before|] == sign;
    assert forall i :: 0 <= i < |before| ==> raw[i] == before[i];
    FirstSpecialIs(line, |before|);
  }

  /** A line with nothing special in it is ignored. */
  lemma PlainIsIgnored(r: Reader, raw: string)
    requires NothingSpecial(raw) && (raw == "" || ' ' <= raw[0] <= '~')
    ensures ReadLine(r, raw) == r
  {
  }

  /** A section is opened by what stands between the first opening and the last closing
      bracket; what is around it does not matter. */
  lemma SectionIsOpened(r: Reader, before: string, name: string, after: string)
    requires NothingSpecial(before) && (before == "" || ' ' <= before[0] <= '~')
    requires forall i :: 0 <= i < |after| ==> after[i] != ']'
    ensures ReadLine(r, before + "[" + name + "]" + after)
         == Reader(r.config + [Section(name, [])], name, r.stopped)
  {
    var raw := before + "[" + name + "]" + after;
    var (p, q) := (|before|, |before| + 1 + |name|);
    BracketPositions(raw, before, name, after);
    assert raw[0] == if before == "" then '[' else before[0];
    assert forall i :: q < i < |raw| ==> raw[i] == raw[q + 1..][i - q - 1];
    OpensAt(r, raw, p, q);
  }

  lemma BracketPositions(raw: string, before: string, name: string, after: string)
    requires raw == before + "[" + name + "]" + after
    ensures var (p, q) := (|before|, |before| + 1 + |name|);
            && q < |raw| && raw[p] == '[' && raw[q] == ']' && raw[..p] == before && raw[p + 1..q] == name
            && raw[q + 1..] == after
  {
  }

  lemma OpensAt(r: Reader, raw: string, p: nat, q: nat)
    requires p < q < |raw| && raw[p] == '[' && raw[q] == ']' && Printable(raw[0])
    requires NothingSpecial(raw[..p]) && forall i :: q < i < |raw| ==> raw[i] != ']'
    ensures ReadLine(r, raw) == Reader(r.config + [Section(raw[p + 1..q], [])], raw[p + 1..q], r.stopped)
  {
    var line := StripReturn(raw);
    assert forall i :: 0 <= i < p ==> line[i] == raw[..p][i];
    FirstSpecialIs(line, p);
    assert line[q] == ']' && line[p + 1..q] == raw[p + 1..q];
    assert forall i :: q < i < |line| ==> line[i] == raw[i];
    LastBracketIs(line, q);
  }

  lemma LastBracketIs(line: string, q: nat)
    requires q < |line| && line[q] == ']' && forall i :: q < i < |line| ==> line[i] != ']'
    ensures AfterLastBracket(line) == q + 1
  {
  }

  /** A line may end in a carriage return, which is no part of the value. */
  lemma ReturnIsDropped(r: Reader, e: Entry)
    requires GoodName(e.name)
    ensures ReadLine(r, EntryLine(e) + "\r") == r.(config := Add(r.config, r.key, e.name, e.value))
  {
    var (raw, p) := (EntryLine(e) + "\r", |e.name|);
    var line := EntryLine(e);
    assert raw[|raw| - 1] == '\r' && raw[..|raw| - 1] == line;
    assert line[p] == '=' && line[..p] == e.name && line[p + 1..] == e.value;
    assert forall i :: 0 <= i < p ==> line[i] == e.name[i];
    FirstSpecialIs(line, p);
  }

  /** The last line needs no line break. */
  lemma {:induction false} LastLineIsRead(lines: seq<string>, last: string, text: string)
    requires (forall k :: 0 <= k < |lines| ==> OneLine(lines[k])) && OneLine(last) && last != ""
    requires text == Text(lines) + last
    ensures Lines(text) == lines + [last]
  {
    if lines == [] {
      OnlyLine(last, text);
    } else {
      var rest := Text(lines[1..]) + last;
      TextFirst(lines, last, rest);
      LastLineIsRead(lines[1..], last, rest);
      LinesBreak(lines[0], rest, text);
      assert lines + [last] == [lines[0]] + (lines[1..] + [last]);
    }
  }

  lemma OnlyLine(last: string, text: string)
    requires OneLine(last) && last != "" && text == "" + last
    ensures Lines(text) == [last]
  {
    assert text == last;
  }

  lemma TextFirst(lines: seq<string>, last: string, rest: string)
    requires lines != [] && rest == Text(lines[1..]) + last
    ensures Text(lines) + last == lines[0] + "\n" + rest
  {
  }

  lemma LinesBreak(line: string, rest: string, text: string)
    requires OneLine(line) && text == line + "\n" + rest
    ensures Lines(text) == [line] + Lines(rest)
  {
    FirstBreak(line, rest);
  }

  /** What a configuration looks like, line by line. */
  lemma PrintedLines(title: string, a: Section, b: Section, e: Entry)
    requires a.entries == [e] && b.entries == []
    ensures Printed(title, [a, b])
         == ["; " + title, "", "[" + a.name + "]", e.name + "=" + e.value, "", "[" + b.name + "]", ""]
  {
    assert EntryLines(a.entries) == [e.name + "=" + e.value] && EntryLines(b.entries) == [];
    assert [a, b][1..] == [b] && [b][1..] == [];
    assert SectionLines(b) == ["[" + b.name + "]", ""] && Body([b]) == SectionLines(b) + [];
    assert SectionLines(a) == ["[" + a.name + "]", e.name + "=" + e.value, ""];
    assert Body([a, b]) == SectionLines(a) + SectionLines(b);
  }

  // ---------------------------------------------------- reading what is good

  /** The configuration read so far: k whole sections and v entries of the next. */
  function Partial(c: Config, k: nat, v: nat): Config
    requires k < |c| && v <= |c[k].entries|
  {
    c[..k] + [Section(c[k].name, c[k].entries[..v])]
  }

  lemma FindInPartial(c: Config, k: nat, v: nat)
    requires k < |c| && v <= |c[k].entries|
    ensures FindKey(Partial(c, k, v), c[k].name) == k <==> FindKey(c, c[k].name) == k
    ensures FindKey(Partial(c, k, v), c[k].name) <= k
  {
    var (d, name) := (Partial(c, k, v), c[k].name);
    assert d[k].name == name && forall i :: 0 <= i < k ==> d[i] == c[i];
    if FindKey(d, name) == k {
      FirstKeyIs(c, name, k);
    } else if FindKey(c, name) == k {
      FirstKeyIs(d, name, k);
    }
  }

  lemma AddNext(c: Config, k: nat, v: nat)
    requires k < |c| && v < |c[k].entries| && GoodSection(c, k)
    ensures var e := c[k].entries[v];
            Add(Partial(c, k, v), c[k].name, e.name, e.value) == Partial(c, k, v + 1)
  {
    var e := c[k].entries[v];
    FindInPartial(c, k, v);
    assert GoodEntry(c[k].entries, v);
    FirstValueIs(c[k].entries[..v], e.name, v);
    assert c[k].entries[..v] + [e] == c[k].entries[..v + 1];
  }

  lemma OneMore(r: Reader, line: string, lines: seq<string>)
    requires !r.stopped
    ensures ReadLines(r, [line] + lines) == ReadLines(ReadLine(r, line), lines)
  {
    assert ([line] + lines)[1..] == lines;
  }

  lemma NextEntryLine(entries: seq<Entry>, v: nat, rest: seq<string>)
    requires v < |entries|
    ensures EntryLines(entries[v..]) + rest
         == [EntryLine(entries[v])] + (EntryLines(entries[v + 1..]) + rest)
  {
  }

  lemma {:induction false} ReadEntries(c: Config, k: nat, v: nat, rest: seq<string>)
    requires k < |c| && v <= |c[k].entries| && GoodSection(c, k)
    ensures ReadLines(Reader(Partial(c, k, v), c[k].name, false), EntryLines(c[k].entries[v..]) + rest)
         == ReadLines(Reader(Partial(c, k, |c[k].entries|), c[k].name, false), rest)
    decreases |c[k].entries| - v
  {
    var entries := c[k].entries;
    if v == |entries| {
      assert EntryLines(entries[v..]) + rest == rest;
    } else {
      assert GoodEntry(entries, v);
      NextEntryLine(entries, v, rest);
      OneMore(Reader(Partial(c, k, v), c[k].name, false), EntryLine(entries[v]),
              EntryLines(entries[v + 1..]) + rest);
      ReadEntryLine(Reader(Partial(c, k, v), c[k].name, false), entries[v]);
      AddNext(c, k, v);
      ReadEntries(c, k, v + 1, rest);
    }
  }

  /** Opening a section, in either direction of the theorem. */
  lemma OpenSection(c: Config, k: nat, key: string)
    requires k < |c|
    ensures ReadLines(Reader(c[..k], key, false), Body(c[k..]))
         == ReadLines(Reader(Partial(c, k, 0), c[k].name, false),
                      EntryLines(c[k].entries[0..]) + ([""] + Body(c[k + 1..])))
  {
    var s := c[k];
    var lines := EntryLines(s.entries) + ([""] + Body(c[k + 1..]));
    assert c[k..][0] == s && c[k..][1..] == c[k + 1..];
    assert Body(c[k..]) == ["[" + s.name + "]"] + lines;
    OneMore(Reader(c[..k], key, false), "[" + s.name + "]", lines);
    ReadSectionLine(Reader(c[..k], key, false), s.name);
    assert s.entries[0..] == s.entries && s.entries[..0] == [];
  }

  lemma CloseSection(c: Config, k: nat)
    requires k < |c|
    ensures ReadLines(Reader(Partial(c, k, |c[k].entries|), c[k].name, false), [""] + Body(c[k + 1..]))
         == ReadLines(Reader(c[..k + 1], c[k].name, false), Body(c[k + 1..]))
  {
    assert c[k].entries[..|c[k].entries|] == c[k].entries;
    assert Partial(c, k, |c[k].entries|) == c[..k + 1];
    OneMore(Reader(c[..k + 1], c[k].name, false), "", Body(c[k + 1..]));
  }

  lemma {:induction false} ReadBody(c: Config, k: nat, key: string)
    requires k <= |c| && Representable(c)
    ensures var r := ReadLines(Reader(c[..k], key, false), Body(c[k..])); r.config == c && !r.stopped
    decreases |c| - k
  {
    if k == |c| {
      assert c[..k] == c;
    } else {
      OpenSection(c, k, key);
      ReadEntries(c, k, 0, [""] + Body(c[k + 1..]));
      CloseSection(c, k);
      ReadBody(c, k + 1, c[k].name);
    }
  }

  lemma SkipHeader(title: string, c: Config)
    ensures ReadLines(Start(), Printed(title, c)) == ReadLines(Reader(c[..0], "", false), Body(c[0..]))
  {
    assert Printed(title, c) == ["; " + title] + ([""] + Body(c));
    OneMore(Start(), "; " + title, [""] + Body(c));
    ReadHeader(Start(), title);
    OneMore(Start(), "", Body(c));
    assert c[..0] == [] && c[0..] == c;
  }

  // ------------------------------------------ what a faithful reading forces

  /** The argument counts values: a reading that ends with all of them cannot have
      lost one on any line, and then nothing it had was ever overwritten. */
  function Total(c: Config): (n: nat)
    decreases |c|
  {
    if c == [] then 0 else Total(c[..|c| - 1]) + |c[|c| - 1].entries|
  }

  lemma TotalAppend(c: Config, s: Section)
    ensures Total(c + [s]) == Total(c) + |s.entries|
  {
    assert (c + [s])[..|c|] == c;
  }

  lemma {:induction false} TotalUpdate(c: Config, k: nat, s: Section)
    requires k < |c|
    ensures Total(c[k := s]) == Total(c) - |c[k].entries| + |s.entries|
    decreases |c|
  {
    var init := c[..|c| - 1];
    if k == |c| - 1 {
      assert c[k := s][..|c| - 1] == init;
    } else {
      assert c[k := s][..|c| - 1] == init[k := s];
      TotalUpdate(init, k, s);
    }
  }

  /** Every section of the first is a section of the second, perhaps with more
      entries after its own. */
  ghost predicate Embedded(a: Config, b: Config) {
    |a| <= |b| && forall k :: 0 <= k < |a| ==> a[k].name == b[k].name && a[k].entries <= b[k].entries
  }

  lemma AddBound(c: Config, key: string, name: string, value: string)
    ensures Total(Add(c, key, name, value)) <= Total(c) + 1
    ensures Total(Add(c, key, name, value)) == Total(c) + 1 ==> Embedded(c, Add(c, key, name, value))
    ensures Total(Add(c, key, name, value)) == Total(c) + 1 ==>
              FindValue(Ensured(c, key)[FindKey(c, key)].entries, name)
              == |Ensured(c, key)[FindKey(c, key)].entries|
  {
    var (k, c') := (FindKey(c, key), Ensured(c, key));
    TotalAppend(c, Section(key, []));
    TotalUpdate(c', k, Section(c'[k].name, SetEntry(c'[k].entries, name, value)));
  }

  /** A line can bring in one value, and none if it starts like a section or a
      comment. */
  function Weight(line: string): nat {
    if line == "" || line[0] == '[' || line[0] == ';' then 0 else 1
  }

  function Weights(lines: seq<string>): nat {
    if lines == [] then 0 else Weight(lines[0]) + Weights(lines[1..])
  }

  /** What a line can do to a configuration: nothing, open a section, or assign. */
  lemma ReadCases(r: Reader, raw: string) returns (a: string, b: string)
    ensures var c := ReadLine(r, raw).config;
            || c == r.config
            || c == r.config + [Section(a, [])]
            || (Weight(raw) == 1 && c == Add(r.config, r.key, a, b))
  {
    var line := StripReturn(raw);
    var p := FirstSpecial(line);
    a, b := "", "";
    if raw != "" && line != "" && p < |line| {
      if Special(line[0]) {
        FirstSpecialIs(line, 0);
      }
      if line[p] == '=' {
        a, b := line[..p], line[p + 1..];
      } else if AfterLastBracket(line) > p + 1 {
        a := line[p + 1..AfterLastBracket(line) - 1];
      }
    }
  }

  lemma LineBound(r: Reader, raw: string)
    ensures Total(ReadLine(r, raw).config) <= Total(r.config) + Weight(raw)
    ensures Total(ReadLine(r, raw).config) == Total(r.config) + Weight(raw) ==>
              Embedded(r.config, ReadLine(r, raw).config)
  {
    var a, b := ReadCases(r, raw);
    TotalAppend(r.config, Section(a, []));
    AddBound(r.config, r.key, a, b);
  }

  lemma EmbeddedTransitive(a: Config, b: Config, c: Config)
    requires Embedded(a, b) && Embedded(b, c)
    ensures Embedded(a, c)
  {
  }

  lemma {:induction false} LinesBound(r: Reader, lines: seq<string>)
    ensures Total(ReadLines(r, lines).config) <= Total(r.config) + Weights(lines)
    ensures Total(ReadLines(r, lines).config) == Total(r.config) + Weights(lines) ==>
              Embedded(r.config, ReadLines(r, lines).config)
    decreases |lines|
  {
    if !r.stopped && lines != [] {
      var r' := ReadLine(r, lines[0]);
      LineBound(r, lines[0]);
      LinesBound(r', lines[1..]);
      if Total(ReadLines(r, lines).config) == Total(r.config) + Weights(lines) {
        EmbeddedTransitive(r.config, r'.config, ReadLines(r, lines).config);
      }
    }
  }

  lemma {:induction false} WeightsConcat(a: seq<string>, b: seq<string>)
    ensures Weights(a + b) == Weights(a) + Weights(b)
    decreases |a|
  {
    if a == [] {
      assert a + b == b;
    } else {
      assert (a + b)[1..] == a[1..] + b;
      WeightsConcat(a[1..], b);
    }
  }

  lemma {:induction false} EntryWeights(entries: seq<Entry>)
    ensures Weights(EntryLines(entries)) <= |entries|
    decreases |entries|
  {
    if entries != [] {
      assert EntryLines(entries)[1..] == EntryLines(entries[1..]);
      EntryWeights(entries[1..]);
    }
  }

  lemma {:induction false} BodyWeights(c: Config, k: nat)
    requires k <= |c|
    ensures Weights(Body(c[k..])) + Total(c[..k]) <= Total(c)
    decreases |c| - k
  {
    if k == |c| {
      assert c[..k] == c;
    } else {
      assert c[k..][0] == c[k] && c[k..][1..] == c[k + 1..];
      assert c[..k + 1] == c[..k] + [c[k]];
      TotalAppend(c[..k], c[k]);
      BodyWeights(c, k + 1);
      EntryWeights(c[k].entries);
      WeightsConcat(["[" + c[k].name + "]"] + EntryLines(c[k].entries), [""]);
      WeightsConcat(["[" + c[k].name + "]"], EntryLines(c[k].entries));
      WeightsConcat(SectionLines(c[k]), Body(c[k + 1..]));
    }
  }

  /** The form of a line that assigns a value. */
  predicate Assigns(raw: string) {
    var line := StripReturn(raw);
    line != "" && Printable(line[0]) && var p := FirstSpecial(line); p < |line| && line[p] == '='
  }

  lemma OthersWeighNothing(r: Reader, raw: string)
    requires !Assigns(raw)
    ensures Total(ReadLine(r, raw).config) == Total(r.config)
  {
    if ReadLine(r, raw).config != r.config {
      var line := StripReturn(raw);
      TotalAppend(r.config, Section(line[FirstSpecial(line) + 1..AfterLastBracket(line) - 1], []));
    }
  }

  /** A line that brings in a value must be an assignment. */
  lemma MustAssign(r: Reader, raw: string) returns (line: string, p: nat)
    requires Total(ReadLine(r, raw).config) == Total(r.config) + 1
    ensures line == StripReturn(raw) && p == FirstSpecial(line) < |line| && line[p] == '='
    ensures Printable(line[0])
    ensures ReadLine(r, raw) == r.(config := Add(r.config, r.key, line[..p], line[p + 1..]))
  {
    if !Assigns(raw) {
      OthersWeighNothing(r, raw);
    }
    line := StripReturn(raw);
    p := FirstSpecial(line);
  }

  lemma MustBeGood(e: Entry, line: string, p: nat)
    requires line == StripReturn(EntryLine(e)) && p == FirstSpecial(line) < |line|
    requires Printable(line[0]) && line[..p] == e.name && line[p + 1..] == e.value
    ensures GoodName(e.name) && GoodValue(e.value)
  {
    var raw := EntryLine(e);
    assert |line| == |raw|;
    assert e.value != "" ==> raw[|raw| - 1] == e.value[|e.value| - 1];
    assert forall i :: 0 <= i < p ==> e.name[i] == line[i];
  }

  lemma MustBeHere(c: Config, k: nat, v: nat, name: string, value: string)
    requires k < |c| && v < |c[k].entries|
    requires Total(Add(Partial(c, k, v), c[k].name, name, value)) == Total(Partial(c, k, v)) + 1
    requires Embedded(Add(Partial(c, k, v), c[k].name, name, value), c)
    ensures FindKey(Partial(c, k, v), c[k].name) == k
    ensures FindValue(c[k].entries[..v], name) == v
  {
    var d := Partial(c, k, v);
    var j := FindKey(d, c[k].name);
    FindInPartial(c, k, v);
    AddBound(d, c[k].name, name, value);
    assert forall i :: 0 <= i < k ==> d[i] == c[i];
    assert |SetEntry(d[j].entries, name, value)| == |d[j].entries| + 1;
    assert Add(d, c[k].name, name, value)[j].entries == SetEntry(d[j].entries, name, value);
  }

  lemma MustExtend(c: Config, k: nat, v: nat, name: string, value: string)
    requires k < |c| && v < |c[k].entries|
    requires Total(Add(Partial(c, k, v), c[k].name, name, value)) == Total(Partial(c, k, v)) + 1
    requires Embedded(Add(Partial(c, k, v), c[k].name, name, value), c)
    ensures FindKey(c, c[k].name) == k && c[k].entries[v] == Entry(name, value)
    ensures Add(Partial(c, k, v), c[k].name, name, value) == Partial(c, k, v + 1)
    ensures forall u :: 0 <= u < v ==> c[k].entries[u].name != name
  {
    var d := Partial(c, k, v);
    MustBeHere(c, k, v, name, value);
    FindInPartial(c, k, v);
    assert Add(d, c[k].name, name, value)[k].entries == c[k].entries[..v] + [Entry(name, value)];
    assert c[k].entries[..v] + [c[k].entries[v]] == c[k].entries[..v + 1];
    assert forall u :: 0 <= u < v ==> c[k].entries[u] == c[k].entries[..v][u];
  }

  lemma EntryForced(c: Config, k: nat, v: nat)
    requires k < |c| && v < |c[k].entries|
    requires var r := Reader(Partial(c, k, v), c[k].name, false);
             var r' := ReadLine(r, EntryLine(c[k].entries[v]));
             Total(r'.config) == Total(r.config) + 1 && Embedded(r'.config, c)
    ensures GoodEntry(c[k].entries, v) && FindKey(c, c[k].name) == k
    ensures ReadLine(Reader(Partial(c, k, v), c[k].name, false), EntryLine(c[k].entries[v]))
         == Reader(Partial(c, k, v + 1), c[k].name, false)
  {
    var e := c[k].entries[v];
    var line, p := MustAssign(Reader(Partial(c, k, v), c[k].name, false), EntryLine(e));
    MustExtend(c, k, v, line[..p], line[p + 1..]);
    MustBeGood(e, line, p);
  }

  /** The lines still to come cannot make up for a value lost here. */
  lemma Remaining(c: Config, k: nat, v: nat, rest: seq<string>)
    requires k < |c| && v < |c[k].entries|
    requires Weights(rest) + Total(c[..k + 1]) <= Total(c)
    ensures Weights(EntryLines(c[k].entries[v + 1..]) + rest) + Total(Partial(c, k, v)) + 1 <= Total(c)
  {
    WeightsConcat(EntryLines(c[k].entries[v + 1..]), rest);
    EntryWeights(c[k].entries[v + 1..]);
    TotalAppend(c[..k], Section(c[k].name, c[k].entries[..v]));
    assert c[..k + 1] == c[..k] + [c[k]];
    TotalAppend(c[..k], c[k]);
  }

  lemma NoneLost(r: Reader, line: string, lines: seq<string>, c: Config)
    requires ReadLines(ReadLine(r, line), lines).config == c
    requires Weights(lines) + Total(r.config) + 1 <= Total(c)
    ensures Total(ReadLine(r, line).config) == Total(r.config) + 1
    ensures Embedded(ReadLine(r, line).config, c)
  {
    LineBound(r, line);
    LinesBound(ReadLine(r, line), lines);
  }

  lemma EntryStep(c: Config, k: nat, v: nat, rest: seq<string>)
    requires k < |c| && v < |c[k].entries|
    requires ReadLines(Reader(Partial(c, k, v), c[k].name, false), EntryLines(c[k].entries[v..]) + rest).config == c
    requires Weights(rest) + Total(c[..k + 1]) <= Total(c)
    ensures GoodEntry(c[k].entries, v) && FindKey(c, c[k].name) == k
    ensures ReadLines(Reader(Partial(c, k, v + 1), c[k].name, false),
                      EntryLines(c[k].entries[v + 1..]) + rest).config == c
  {
    var (entries, r) := (c[k].entries, Reader(Partial(c, k, v), c[k].name, false));
    var tail := EntryLines(entries[v + 1..]) + rest;
    NextEntryLine(entries, v, rest);
    OneMore(r, EntryLine(entries[v]), tail);
    Remaining(c, k, v, rest);
    NoneLost(r, EntryLine(entries[v]), tail, c);
    EntryForced(c, k, v);
  }

  ghost predicate GoodFrom(entries: seq<Entry>, v: nat) {
    forall u :: v <= u < |entries| ==> GoodEntry(entries, u)
  }

  lemma FirstForced(entries: seq<Entry>, v: nat)
    requires v < |entries| && GoodEntry(entries, v) && GoodFrom(entries, v + 1)
    ensures GoodFrom(entries, v)
  {
  }

  lemma NoneLeft(entries: seq<Entry>, rest: seq<string>)
    ensures EntryLines(entries[|entries|..]) + rest == rest && GoodFrom(entries, |entries|)
  {
  }

  lemma {:induction false} EntriesForced(c: Config, k: nat, v: nat, rest: seq<string>)
    requires k < |c| && v <= |c[k].entries|
    requires ReadLines(Reader(Partial(c, k, v), c[k].name, false), EntryLines(c[k].entries[v..]) + rest).config == c
    requires Weights(rest) + Total(c[..k + 1]) <= Total(c)
    ensures GoodFrom(c[k].entries, v)
    ensures v < |c[k].entries| ==> FindKey(c, c[k].name) == k
    ensures ReadLines(Reader(Partial(c, k, |c[k].entries|), c[k].name, false), rest).config == c
    decreases |c[k].entries| - v
  {
    if v == |c[k].entries| {
      NoneLeft(c[k].entries, rest);
    } else {
      EntryStep(c, k, v, rest);
      EntriesForced(c, k, v + 1, rest);
      FirstForced(c[k].entries, v);
    }
  }

  lemma {:induction false} BodyForced(c: Config, k: nat, key: string)
    requires k <= |c| && ReadLines(Reader(c[..k], key, false), Body(c[k..])).config == c
    ensures forall j :: k <= j < |c| ==> GoodSection(c, j)
    decreases |c| - k
  {
    if k < |c| {
      OpenSection(c, k, key);
      BodyWeights(c, k + 1);
      assert ([""] + Body(c[k + 1..]))[1..] == Body(c[k + 1..]);
      EntriesForced(c, k, 0, [""] + Body(c[k + 1..]));
      CloseSection(c, k);
      BodyForced(c, k + 1, c[k].name);
    }
  }

  // -------------------------------------------------------------- theorem

  /** Writing and reading gives back the same sections, names, values and order
      exactly for the representable configurations. */
  lemma RoundTrip(title: string, c: Config)
    requires OneLine(title)
    ensures Read(Print(title, c)).config == c <==> Representable(c)
    ensures Representable(c) ==> !Read(Print(title, c)).stopped
  {
    SkipHeader(title, c);
    if Representable(c) {
      PrintedIsRead(title, c);
      ReadBody(c, 0, "");
    }
    if Read(Print(title, c)).config == c {
      LinesAreLines(Print(title, c));
      ReadClean(Start(), Lines(Print(title, c)));
      PrintedIsRead(title, c);
      BodyForced(c, 0, "");
    }
  }

  /** Not every configuration is representable: a value that ends in a carriage
      return comes back without it. */
  lemma CarriageReturnIsLost(title: string, c: Config)
    requires OneLine(title) && c == [Section("A", [Entry("x", "1\r")])]
    ensures AllClean(c) && Read(Print(title, c)).config != c
  {
    RoundTrip(title, c);
    assert Clean(c[0]);
    assert !GoodValue(c[0].entries[0].value);
    assert Representable(c) ==> GoodSection(c, 0) && GoodEntry(c[0].entries, 0);
  }
}
