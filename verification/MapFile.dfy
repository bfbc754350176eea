/** HAProxy map files: written entry by entry in any order, read back line by line. */
module MapFiles {
  import opened Wrappers
  import opened Text

  type Entries = map<string, string>

  datatype ReadResult = Ok(entries: Entries) | LineTooLong

  // ---- characters

  /** `unicode.IsSpace`. */
  predicate IsSpace(c: char) {
    var n := c as int;
    || 9 <= n <= 13 || n == 0x20 || n == 0x85 || n == 0xA0 || n == 0x1680 || 0x2000 <= n <= 0x200A
    || n == 0x2028 || n == 0x2029 || n == 0x202F || n == 0x205F || n == 0x3000
  }

  /** Blanks, line and page breaks, and the spaces of Unicode. */
  lemma SpacesAre(c: char)
    ensures IsSpace(c) <==> c in {'\t', '\n', '\U{b}', '\U{c}', '\r', ' ', '\U{85}', '\U{a0}', '\U{1680}', '\U{2000}', '\U{2001}', '\U{2002}',
                                  '\U{2003}', '\U{2004}', '\U{2005}', '\U{2006}', '\U{2007}', '\U{2008}', '\U{2009}', '\U{200a}',
                                  '\U{2028}', '\U{2029}', '\U{202f}', '\U{205f}', '\U{3000}'}
  {}

  /** Bytes of a character in UTF-8: seven bits in one byte, then five more, five more and
      what is left. */
  function Width(c: char): (r: nat)
    ensures 1 <= r <= 4 && (r <= 1 <==> c < '\U{80}') && (r <= 2 <==> c < '\U{800}') && (r <= 3 <==> c < '\U{10000}')
  {
    var n := c as int;
    if n < 0x80 then 1 else if n < 0x800 then 2 else if n < 0x10000 then 3 else 4
  }

  function Bytes(s: string): nat {
    if s == "" then 0 else Width(s[0]) + Bytes(s[1..])
  }

  function TrimLeft(s: string): string {
    if s != "" && IsSpace(s[0]) then TrimLeft(s[1..]) else s
  }

  function TrimRight(s: string): string {
    if s != "" && IsSpace(s[|s| - 1]) then TrimRight(s[..|s| - 1]) else s
  }

  function TrimSpace(s: string): string {
    TrimRight(TrimLeft(s))
  }

  predicate Trimmed(s: string) {
    s == "" || (!IsSpace(s[0]) && !IsSpace(s[|s| - 1]))
  }

  lemma {:induction false} TrimRightTrims(s: string)
    requires s == "" || !IsSpace(s[0])
    ensures Trimmed(TrimRight(s))
    ensures forall c :: c in TrimRight(s) ==> c in s
  {
    if s != "" && IsSpace(s[|s| - 1]) { TrimRightTrims(s[..|s| - 1]); }
  }

  lemma {:induction false} TrimLeftTrims(s: string)
    ensures TrimLeft(s) == "" || !IsSpace(TrimLeft(s)[0])
    ensures forall c :: c in TrimLeft(s) ==> c in s
  {
    if s != "" && IsSpace(s[0]) { TrimLeftTrims(s[1..]); }
  }

  ghost predicate Blank(s: string) {
    forall i :: 0 <= i < |s| ==> IsSpace(s[i])
  }

  ghost predicate CutFrom(s: string, r: string) {
    exists a, b :: Blank(a) && Blank(b) && s == a + r + b
  }

  lemma {:induction false} TrimLeftCuts(s: string) returns (a: string)
    ensures Blank(a) && s == a + TrimLeft(s)
  {
    if s != "" && IsSpace(s[0]) {
      a := TrimLeftCuts(s[1..]);
      a := [s[0]] + a;
    } else {
      a := "";
    }
  }

  lemma {:induction false} TrimRightCuts(s: string) returns (b: string)
    ensures Blank(b) && s == TrimRight(s) + b
  {
    if s != "" && IsSpace(s[|s| - 1]) {
      b := TrimRightCuts(s[..|s| - 1]);
      b := b + [s[|s| - 1]];
    } else {
      b := "";
    }
  }

  /** Trimming cuts off spaces at both ends and nothing else, yields trimmed text, and leaves
      alone exactly what is trimmed already. */
  lemma TrimSpaceTrims(s: string)
    ensures Trimmed(TrimSpace(s)) && forall c :: c in TrimSpace(s) ==> c in s
    ensures TrimSpace(s) == s <==> Trimmed(s)
    ensures CutFrom(s, TrimSpace(s))
  {
    TrimLeftTrims(s);
    TrimRightTrims(TrimLeft(s));
    var a := TrimLeftCuts(s);
    var b := TrimRightCuts(TrimLeft(s));
    assert s == a + TrimSpace(s) + b;
  }

  // ---- reading

  /** The largest line, in bytes, the scanner's buffer holds together with its newline. */
  const MAX_LINE := 65535

  /** The lines of a file; a last line need not be closed. */
  function Lines(content: string): seq<string> {
    var parts := Split(content, '\n');
    if parts[|parts| - 1] == "" then parts[..|parts| - 1] else parts
  }

  /** The lines put together again, with or without a last line break. */
  lemma LinesMean(content: string)
    ensures forall i :: 0 <= i < |Lines(content)| ==> '\n' !in Lines(content)[i]
    ensures content == Join(Lines(content), '\n') || (Lines(content) != [] && content == Join(Lines(content), '\n') + "\n")
    ensures Lines(content) == [] <==> content == ""
    ensures content == Join(Lines(content), '\n') && Lines(content) != [] ==> Lines(content)[|Lines(content)| - 1] != ""
  {
    SplitParts(content, '\n');
    var parts := Split(content, '\n');
    var n := |parts| - 1;
    if parts[n] == "" && n > 0 {
      JoinSnoc(parts[..n], "", '\n');
      assert parts == parts[..n] + [""];
    }
  }

  lemma {:induction false} JoinSnoc(parts: seq<string>, last: string, c: char)
    requires parts != []
    ensures Join(parts + [last], c) == Join(parts, c) + [c] + last
  {
    if |parts| > 1 {
      JoinSnoc(parts[1..], last, c);
      assert (parts + [last])[1..] == parts[1..] + [last];
    } else {
      assert (parts + [last])[1..] == [last];
    }
  }

  function DropCarriageReturn(line: string): (r: string)
    ensures line == r + "\r" || (line == r && (line == "" || line[|line| - 1] != '\r'))
  {
    if line != "" && line[|line| - 1] == '\r' then line[..|line| - 1] else line
  }

  function IndexOf(s: string, c: char): (i: nat)
    ensures i <= |s| && c !in s[..i] && (i < |s| ==> s[i] == c) && (i < |s| <==> c in s)
  {
    if s == "" || s[0] == c then 0
    else
      var i := IndexOf(s[1..], c);
      assert s[..i + 1] == [s[0]] + s[1..][..i] && s == [s[0]] + s[1..];
      i + 1
  }

  /** The key and value of a line; none without a separator or with a blank key. */
  function ParseLine(line: string, separator: char): Option<(string, string)> {
    var i := IndexOf(line, separator);
    if i == |line| then None
    else
      var key := TrimSpace(line[..i]);
      if key == "" then None else Some((key, TrimSpace(line[i + 1..])))
  }

  /** Later lines win. */
  function Parsed(lines: seq<string>, separator: char): Entries {
    if lines == [] then map[] else AddLine(Parsed(lines[..|lines| - 1], separator), lines[|lines| - 1], separator)
  }

  function AddLine(before: Entries, line: string, separator: char): Entries {
    match ParseLine(DropCarriageReturn(line), separator)
    case None => before
    case Some(entry) => before[entry.0 := entry.1]
  }

  /** Only the first separator counts, and a blank key is none. */
  lemma ParseLineMeans(before: string, after: string, separator: char)
    requires separator !in before
    ensures ParseLine(before, separator) == None
    ensures ParseLine(before + [separator] + after, separator) ==
            if TrimSpace(before) == "" then None else Some((TrimSpace(before), TrimSpace(after)))
  {
    var line := before + [separator] + after;
    var i := IndexOf(line, separator);
    assert line[|before|] == separator;
    assert forall j :: 0 <= j < |before| ==> line[j] == before[j] && before[j] in before;
    assert forall j :: 0 <= j < i ==> line[j] == line[..i][j] && line[..i][j] in line[..i];
    assert line[..i] == before && line[i + 1..] == after;
  }

  ghost predicate Gives(lines: seq<string>, i: nat, separator: char, k: string, v: string)
    requires i < |lines|
  {
    ParseLine(DropCarriageReturn(lines[i]), separator) == Some((k, v))
  }

  /** A key has the value of the last line that gives one. */
  ghost predicate LastGives(lines: seq<string>, separator: char, k: string, v: string) {
    exists i :: 0 <= i < |lines| && Gives(lines, i, separator, k, v) && NoneGive(lines, i + 1, separator, k)
  }

  ghost predicate NoneGive(lines: seq<string>, from: nat, separator: char, k: string) {
    forall i, v :: from <= i < |lines| ==> !Gives(lines, i, separator, k, v)
  }

  lemma {:induction false} ParsedMeans(lines: seq<string>, separator: char, k: string)
    ensures k in Parsed(lines, separator) ==> LastGives(lines, separator, k, Parsed(lines, separator)[k])
    ensures k !in Parsed(lines, separator) ==> NoneGive(lines, 0, separator, k)
    decreases |lines|
  {
    if lines != [] {
      var n := |lines| - 1;
      var init := lines[..n];
      ParsedMeans(init, separator, k);
      hide ParseLine, DropCarriageReturn;
      forall i, v | 0 <= i < n ensures Gives(lines, i, separator, k, v) <==> Gives(init, i, separator, k, v) {}
      match ParseLine(DropCarriageReturn(lines[n]), separator)
      case Some(entry) =>
        if entry.0 == k {
          assert Gives(lines, n, separator, k, entry.1);
        } else {
          assert forall v :: !Gives(lines, n, separator, k, v);
          StillLast(init, lines, separator, k, Parsed(init, separator));
        }
      case None =>
        assert forall v :: !Gives(lines, n, separator, k, v);
        StillLast(init, lines, separator, k, Parsed(init, separator));
    }
  }

  lemma StillLast(init: seq<string>, lines: seq<string>, separator: char, k: string, parsed: Entries)
    requires |lines| == |init| + 1 && lines[..|init|] == init && forall v :: !Gives(lines, |init|, separator, k, v)
    ensures k in parsed && LastGives(init, separator, k, parsed[k]) ==> LastGives(lines, separator, k, parsed[k])
    ensures NoneGive(init, 0, separator, k) ==> NoneGive(lines, 0, separator, k)
  {
    hide ParseLine, DropCarriageReturn;
    forall i, v | 0 <= i < |init| ensures Gives(lines, i, separator, k, v) <==> Gives(init, i, separator, k, v) {
      assert lines[i] == init[i];
    }
    if k in parsed && LastGives(init, separator, k, parsed[k]) {
      var i :| 0 <= i < |init| && Gives(init, i, separator, k, parsed[k]) && NoneGive(init, i + 1, separator, k);
      assert NoneGive(lines, i + 1, separator, k);
    }
  }

  lemma ParsedSnoc(lines: seq<string>, i: nat, separator: char)
    requires i < |lines|
    ensures Parsed(lines[..i + 1], separator) == AddLine(Parsed(lines[..i], separator), lines[i], separator)
    ensures Fits(lines[..i + 1]) <==> Fits(lines[..i]) && Bytes(lines[i]) <= MAX_LINE
  {
    assert lines[..i + 1][..i] == lines[..i];
    assert lines[..i + 1] == lines[..i] + [lines[i]];
  }

  lemma TooLong(lines: seq<string>, i: nat)
    requires i < |lines| && Bytes(lines[i]) > MAX_LINE
    ensures !Fits(lines)
  {}

  lemma NothingRead(separator: char)
    ensures Parsed([], separator) == map[] && Fits([])
  {}

  ghost predicate Fits(lines: seq<string>) {
    forall i :: 0 <= i < |lines| ==> Bytes(lines[i]) <= MAX_LINE
  }

  ghost function ReadBack(file: Option<string>, separator: char): ReadResult {
    if file == None then Ok(map[])
    else if Fits(Lines(file.value)) then Ok(Parsed(Lines(file.value), separator))
    else LineTooLong
  }

  method ReadKeyValueFile(file: Option<string>, separator: char) returns (r: ReadResult)
    ensures r == ReadBack(file, separator)
  {
    if file == None {
      return Ok(map[]);
    }
    hide Parsed, Lines, Bytes, Fits, AddLine;
    var data: Entries := map[];
    var lines := Lines(file.value);
    NothingRead(separator);
    assert lines[..0] == [];
    for i := 0 to |lines|
      invariant Fits(lines[..i])
      invariant data == Parsed(lines[..i], separator)
    {
      ParsedSnoc(lines, i, separator);
      if Bytes(lines[i]) > MAX_LINE {
        TooLong(lines, i);
        return LineTooLong;
      }
      data := ReadLine(data, lines[i], separator);
    }
    assert lines[..|lines|] == lines;
    return Ok(data);
  }

  method ReadLine(data: Entries, text: string, separator: char) returns (r: Entries)
    ensures r == AddLine(data, text, separator)
  {
    hide TrimSpace, DropCarriageReturn, IndexOf;
    r := data;
    var line := DropCarriageReturn(text);
    var at := IndexOf(line, separator);
    if at < |line| {
      var key, value := TrimSpace(line[..at]), TrimSpace(line[at + 1..]);
      if key != "" {
        r := r[key := value];
      }
    }
  }

  // ---- writing

  function Line(m: Entries, k: string): (r: string)
    requires k in m
    ensures |r| == |k| + 1 + |m[k]| && r[..|k|] == k && r[|k|] == ' ' && r[|k| + 1..] == m[k]
  {
    k + " " + m[k]
  }

  ghost predicate Enumerates(order: seq<string>, m: Entries) {
    Distinct(order) && forall k :: k in order <==> k in m
  }

  ghost predicate Within(order: seq<string>, m: Entries) {
    forall k :: k in order ==> k in m
  }

  ghost function Printed(m: Entries, order: seq<string>): string
    requires Within(order, m)
  {
    if order == [] then "" else Line(m, order[0]) + "\n" + Printed(m, order[1..])
  }

  lemma {:induction false} PrintedSnoc(m: Entries, order: seq<string>, k: string)
    requires Within(order, m) && k in m
    ensures Within(order + [k], m) && Printed(m, order + [k]) == Printed(m, order) + Line(m, k) + "\n"
  {
    hide Line;
    if order == [] {
      assert order + [k] == [k];
      assert Printed(m, [k]) == Line(m, k) + "\n" + Printed(m, []);
    } else {
      PrintedSnoc(m, order[1..], k);
      assert (order + [k])[1..] == order[1..] + [k];
    }
  }

  /** Writes the entries in the order the map happens to yield them. */
  method WriteOnDisk(m: Entries) returns (content: string)
    ensures exists order :: Enumerates(order, m) && content == Printed(m, order)
  {
    content := "";
    ghost var order: seq<string> := [];
    var todo := m.Keys;
    while todo != {}
      invariant todo <= m.Keys && Within(order, m) && Distinct(order)
      invariant forall k :: k in order <==> k in m.Keys - todo
      invariant content == Printed(m, order)
    {
      var k :| k in todo;
      PrintedSnoc(m, order, k);
      assert forall i :: 0 <= i < |order| ==> order[i] in m.Keys - todo;
      todo := todo - {k};
      content := content + k + " " + m[k] + "\n";
      order := order + [k];
    }
    assert Enumerates(order, m) && content == Printed(m, order);
  }

  // ---- the round trip

  ghost predicate CleanKey(k: string) {
    k != "" && Trimmed(k) && ' ' !in k && '\n' !in k
  }

  ghost predicate CleanValue(v: string) {
    Trimmed(v) && '\n' !in v
  }

  ghost predicate Clean(m: Entries) {
    forall k :: k in m ==> CleanKey(k) && CleanValue(m[k])
  }

  ghost predicate ShortLines(m: Entries) {
    forall k :: k in m ==> Bytes(Line(m, k)) <= MAX_LINE
  }

  /** Whatever a file holds, reading it gives a clean map. */
  lemma ReadIsClean(content: string)
    ensures Clean(Parsed(Lines(content), ' '))
  {
    SplitParts(content, '\n');
    ParsedIsClean(Lines(content));
  }

  lemma {:induction false} ParsedIsClean(lines: seq<string>)
    requires forall i :: 0 <= i < |lines| ==> '\n' !in lines[i]
    ensures Clean(Parsed(lines, ' '))
  {
    if lines != [] {
      ParsedIsClean(lines[..|lines| - 1]);
      assert Parsed(lines, ' ') == AddLine(Parsed(lines[..|lines| - 1], ' '), lines[|lines| - 1], ' ');
      hide Parsed, Clean;
      LineIsClean(Parsed(lines[..|lines| - 1], ' '), lines[|lines| - 1]);
    }
  }

  lemma LineIsClean(before: Entries, text: string)
    requires Clean(before) && '\n' !in text
    ensures Clean(AddLine(before, text, ' '))
  {
    hide TrimSpace, CutFrom, Trimmed, DropCarriageReturn, IndexOf;
    var line := DropCarriageReturn(text);
    assert forall c :: c in line ==> c in text;
    var i := IndexOf(line, ' ');
    TrimSpaceTrims(line[..i]);
    if i < |line| { TrimSpaceTrims(line[i + 1..]); }
  }

  ghost function LinesOf(m: Entries, order: seq<string>): seq<string>
    requires Within(order, m)
  {
    seq(|order|, i requires 0 <= i < |order| => Line(m, order[i]))
  }

  lemma {:induction false} LinesOfPrinted(m: Entries, order: seq<string>)
    requires Within(order, m) && Clean(m)
    ensures Split(Printed(m, order), '\n') == LinesOf(m, order) + [""]
  {
    if order != [] {
      assert order[0] in order;
      LinesOfPrinted(m, order[1..]);
      SplitPrefix(Line(m, order[0]), Printed(m, order[1..]), '\n');
      assert Line(m, order[0]) + ['\n'] + Printed(m, order[1..]) == Printed(m, order);
      assert LinesOf(m, order) == [Line(m, order[0])] + LinesOf(m, order[1..]);
    }
  }

  lemma {:induction false} IndexOfIs(s: string, c: char, i: nat)
    requires i < |s| && s[i] == c && c !in s[..i]
    ensures IndexOf(s, c) == i
  {
    if i > 0 {
      assert s[..i][0] == s[0] && s[1..][..i - 1] == s[..i][1..];
      IndexOfIs(s[1..], c, i - 1);
    }
  }

  lemma ParseWritten(m: Entries, k: string)
    requires k in m && CleanKey(k) && CleanValue(m[k])
    ensures ParseLine(DropCarriageReturn(Line(m, k)), ' ') == Some((k, m[k]))
  {
    var line := Line(m, k);
    assert line[|line| - 1] == if m[k] == "" then ' ' else m[k][|m[k]| - 1];
    assert DropCarriageReturn(line) == line;
    assert line[|k|] == ' ' && line[..|k|] == k && line[|k| + 1..] == m[k];
    IndexOfIs(line, ' ', |k|);
    TrimSpaceTrims(k);
    TrimSpaceTrims(m[k]);
  }

  lemma {:induction false} ParsedWritten(m: Entries, order: seq<string>)
    requires Within(order, m) && Clean(m)
    ensures Parsed(LinesOf(m, order), ' ') == map k | k in order :: m[k]
  {
    hide ParseLine, DropCarriageReturn, Line, Parsed;
    if order == [] {
      NothingRead(' ');
      assert LinesOf(m, order) == [];
    } else {
      var n := |order| - 1;
      var k := order[n];
      assert order == order[..n] + [k];
      WithinSnoc(m, order[..n], k);
      ParsedWritten(m, order[..n]);
      ParseWritten(m, k);
      var lines := LinesOf(m, order);
      assert lines[..n] == LinesOf(m, order[..n]) && lines[..n + 1] == lines && lines[n] == Line(m, k);
      ParsedSnoc(lines, n, ' ');
    }
  }

  lemma WithinSnoc(m: Entries, order: seq<string>, k: string)
    requires Within(order + [k], m)
    ensures Within(order, m) && k in m
    ensures (map k' | k' in order + [k] :: m[k']) == (map k' | k' in order :: m[k'])[k := m[k]]
  {
    assert (order + [k])[|order|] == k;
  }

  /** In whatever order a map was written, reading it back gives the same map exactly when
      the map is clean and no line exceeds the scanner's buffer. */
  lemma WriteThenRead(m: Entries, order: seq<string>)
    requires Enumerates(order, m)
    ensures ReadBack(Some(Printed(m, order)), ' ') == Ok(m) <==> Clean(m) && ShortLines(m)
  {
    hide Parsed, Lines, Printed, Bytes, Clean;
    ReadIsClean(Printed(m, order));
    if Clean(m) {
      LinesRead(m, order);
      ParsedWritten(m, order);
      assert (map k | k in order :: m[k]) == m;
      LinesFit(m, order);
    }
  }

  lemma LinesRead(m: Entries, order: seq<string>)
    requires Within(order, m) && Clean(m)
    ensures Lines(Printed(m, order)) == LinesOf(m, order)
  {
    LinesOfPrinted(m, order);
  }

  lemma LinesFit(m: Entries, order: seq<string>)
    requires Enumerates(order, m)
    ensures Fits(LinesOf(m, order)) <==> ShortLines(m)
  {
    hide Bytes, Line;
    forall i | 0 <= i < |order| ensures order[i] in m && LinesOf(m, order)[i] == Line(m, order[i]) {
      assert order[i] in order;
    }
    if Fits(LinesOf(m, order)) {
      forall k | k in m ensures Bytes(Line(m, k)) <= MAX_LINE {
        var i :| 0 <= i < |order| && order[i] == k;
        assert Bytes(LinesOf(m, order)[i]) <= MAX_LINE;
      }
    }
  }

  /** A clean map with short lines survives writing and reading on disk. */
  method RoundTrip(m: Entries) returns (r: ReadResult)
    ensures r == Ok(m) <==> Clean(m) && ShortLines(m)
  {
    var content := WriteOnDisk(m);
    ghost var order :| Enumerates(order, m) && content == Printed(m, order);
    r := ReadKeyValueFile(Some(content), ' ');
    WriteThenRead(m, order);
  }

  /** A key with a space comes back shorter, its rest moved into the value. */
  lemma SpacedKeyIsLost()
    ensures ReadBack(Some(Printed(map["a b" := "c"], ["a b"])), ' ') != Ok(map["a b" := "c"])
  {
    var m := map["a b" := "c"];
    assert "a b"[1] == ' ';
    assert Enumerates(["a b"], m);
    WriteThenRead(m, ["a b"]);
    assert !CleanKey("a b");
  }
}
