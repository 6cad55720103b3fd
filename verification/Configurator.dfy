/** The configuration object: a list of sections searched and grown in place. The
    file itself is a text that is handed in or handed back. */
module Configurator {

  import opened IniFormat
  import opened IniRoundTrip

  class Configurator {
    var sections: Config

    constructor (file: string)
      ensures sections == Read(file).config
    {
      sections := [];
      new;
      var _ := ReadFile(file);
    }

    /** Reads line after line until one starts with nothing printable. */
    method ReadFile(file: string) returns (ok: bool)
      modifies this
      ensures var r := ReadLines(Reader(old(sections), "", false), Lines(file));
              sections == r.config && (ok <==> !r.stopped && r.config != [])
    {
      var lines := Lines(file);
      var keyName := "";
      ghost var start := Reader(sections, "", false);
      for i := 0 to |lines|
        invariant ReadLines(start, lines) == ReadLines(Reader(sections, keyName, false), lines[i..])
      {
        ghost var before := Reader(sections, keyName, false);
        assert lines[i..][1..] == lines[i + 1..];
        var line := lines[i];
        if line != "" {
          line := StripReturn(line);
          if line == "" || !Printable(line[0]) {
            return false;
          }
          var left := FirstSpecial(line);
          if left < |line| {
            if line[left] == '[' {
              var right := AfterLastBracket(line);
              if right > left + 1 {
                keyName := line[left + 1..right - 1];
                AddKeyName(keyName);
              }
            } else if line[left] == '=' {
              AddValue(keyName, line[..left], line[left + 1..]);
            }
          }
        }
        assert Reader(sections, keyName, false) == ReadLine(before, lines[i]);
      }
      ok := sections != [];
    }

    /** Writes a title comment and every section with its values; `lines` is what
        has been written so far. */
    method WriteFile(title: string) returns (file: string)
      ensures file == Print(title, sections)
    {
      ghost var lines := ["; " + title, ""];
      file := "; " + title + "\n" + "\n";
      TextOfTwo("; " + title, "");
      for k := 0 to |sections|
        invariant file == Text(lines)
        invariant lines + Body(sections[k..]) == Printed(title, sections)
      {
        NextSection(lines, sections, k);
        file := WriteSection(file, sections[k]);
        lines := lines + SectionLines(sections[k]);
      }
      AllWritten(lines, sections);
    }

    method WriteSection(start: string, s: Section) returns (file: string)
      ensures file == start + Text(SectionLines(s))
    {
      var head := "[" + s.name + "]" + "\n";
      file := WriteEntries(start + head, s.entries);
      file := file + "\n";
      TextOfSection(s);
    }

    method WriteEntries(start: string, entries: seq<Entry>) returns (file: string)
      ensures file == start + Text(EntryLines(entries))
    {
      file := start;
      for v := 0 to |entries|
        invariant file == start + Text(EntryLines(entries[..v]))
      {
        assert EntryLines(entries[..v + 1]) == EntryLines(entries[..v]) + [EntryLine(entries[v])];
        TextLast(EntryLines(entries[..v]), EntryLine(entries[v]));
        file := file + entries[v].name + "=" + entries[v].value + "\n";
      }
      assert entries[..|entries|] == entries;
    }

    method FindKeyID(keyName: string) returns (keyID: int)
      ensures keyID == if FindKey(sections, keyName) < |sections| then FindKey(sections, keyName) else -1
    {
      for k := 0 to |sections|
        invariant forall i :: 0 <= i < k ==> sections[i].name != keyName
      {
        if sections[k].name == keyName {
          FirstKeyIs(sections, keyName, k);
          return k;
        }
      }
      keyID := -1;
    }

    method FindValueID(keyID: nat, valueName: string) returns (valueID: int)
      ensures keyID >= |sections| ==> valueID == -1
      ensures keyID < |sections| ==>
                var entries := sections[keyID].entries;
                valueID == if FindValue(entries, valueName) < |entries| then FindValue(entries, valueName) else -1
    {
      if keyID >= |sections| {
        return -1;
      }
      for v := 0 to |sections[keyID].entries|
        invariant forall i :: 0 <= i < v ==> sections[keyID].entries[i].name != valueName
      {
        if sections[keyID].entries[v].name == valueName {
          FirstValueIs(sections[keyID].entries, valueName, v);
          return v;
        }
      }
      valueID := -1;
    }

    method AddKeyName(keyName: string)
      modifies this
      ensures sections == old(sections) + [Section(keyName, [])]
    {
      sections := sections + [Section(keyName, [])];
    }

    method AddValue(keyName: string, valueName: string, value: string)
      modifies this
      ensures sections == Add(old(sections), keyName, valueName, value)
    {
      var keyID := FindKeyID(keyName);
      if keyID == -1 {
        keyID := |sections|;
        AddKeyName(keyName);
      }
      var valueID := FindValueID(keyID, valueName);
      var s := sections[keyID];
      if valueID == -1 {
        sections := sections[keyID := Section(s.name, s.entries + [Entry(valueName, value)])];
      } else {
        sections := sections[keyID := Section(s.name, s.entries[valueID := Entry(valueName, value)])];
      }
    }

    method GetValue(keyName: string, valueName: string, defaultValue: string) returns (value: string)
      ensures value == Get(sections, keyName, valueName, defaultValue)
    {
      var keyID := FindKeyID(keyName);
      if keyID == -1 {
        return defaultValue;
      }
      var valueID := FindValueID(keyID, valueName);
      if valueID == -1 {
        return defaultValue;
      }
      value := sections[keyID].entries[valueID].value;
    }
  }

  lemma {:induction false} TextLast(lines: seq<string>, line: string)
    ensures Text(lines + [line]) == Text(lines) + line + "\n"
    decreases |lines|
  {
    if lines == [] {
      assert [line][1..] == [];
    } else {
      assert (lines + [line])[1..] == lines[1..] + [line];
      TextLast(lines[1..], line);
    }
  }

  lemma {:induction false} TextConcat(a: seq<string>, b: seq<string>)
    ensures Text(a + b) == Text(a) + Text(b)
    decreases |a|
  {
    if a == [] {
      assert a + b == b;
    } else {
      assert (a + b)[1..] == a[1..] + b;
      TextConcat(a[1..], b);
    }
  }

  lemma NextSection(lines: seq<string>, c: Config, k: nat)
    requires k < |c|
    ensures lines + SectionLines(c[k]) + Body(c[k + 1..]) == lines + Body(c[k..])
    ensures Text(lines + SectionLines(c[k])) == Text(lines) + Text(SectionLines(c[k]))
  {
    assert c[k..][0] == c[k] && c[k..][1..] == c[k + 1..];
    TextConcat(lines, SectionLines(c[k]));
  }

  lemma AllWritten(lines: seq<string>, c: Config)
    ensures lines + Body(c[|c|..]) == lines
  {
  }

  lemma TextOfTwo(a: string, b: string)
    ensures Text([a, b]) == a + "\n" + b + "\n"
  {
    TextLast([a], b);
    TextLast([], a);
    assert [a, b] == [a] + [b] && [a] == [] + [a];
  }

  lemma TextOfSection(s: Section)
    ensures Text(SectionLines(s)) == "[" + s.name + "]" + "\n" + Text(EntryLines(s.entries)) + "\n"
  {
    TextLast(["[" + s.name + "]"] + EntryLines(s.entries), "");
    TextConcat(["[" + s.name + "]"], EntryLines(s.entries));
    TextLast([], "[" + s.name + "]");
    assert [] + ["[" + s.name + "]"] == ["[" + s.name + "]"];
  }

  /** What one object writes another reads, exactly when it can be represented. */
  method SaveAndLoad(c: Configurator, title: string) returns (copy: Configurator)
    requires OneLine(title)
    ensures copy.sections == c.sections <==> Representable(c.sections)
  {
    var file := c.WriteFile(title);
    copy := new Configurator(file);
    RoundTrip(title, c.sections);
  }
}
