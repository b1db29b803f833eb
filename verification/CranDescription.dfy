/**
 * CRAN `DESCRIPTION` files (`parseCranDescription` of
 * workers/shared/native-cpan-cran.js), and a printer it undoes.
 */
module CranDescription {
  import opened Common
  import opened Routes
  import Strings = Text

  const ALLOWED := {"Package", "Version", "Title", "Description", "URL", "BugReports"}

  // ----- lines and trimming -----

  /** White space and line terminators of ECMAScript. */
  predicate IsSpace(c: char) {
    var n := c as int;
    9 <= n <= 13 || n == 0x20 || n == 0xA0 || n == 0x1680 || 0x2000 <= n <= 0x200A || n == 0x2028 || n == 0x2029
    || n == 0x202F || n == 0x205F || n == 0x3000 || n == 0xFEFF
  }

  function TrimLeft(s: string): string {
    if s != "" && IsSpace(s[0]) then TrimLeft(s[1..]) else s
  }

  function TrimRight(s: string): string {
    if s != "" && IsSpace(s[|s| - 1]) then TrimRight(s[..|s| - 1]) else s
  }

  /** `s.trim()` */
  function Trim(s: string): string { TrimRight(TrimLeft(s)) }

  function DropReturn(line: string): string {
    if line != "" && line[|line| - 1] == '\r' then line[..|line| - 1] else line
  }

  /** `text.split(/\r?\n/)`, from the parts between line feeds. */
  function WithoutReturns(parts: seq<string>): (r: seq<string>)
    ensures |r| == |parts|
  {
    if parts == [] then []
    else if |parts| == 1 then parts
    else [DropReturn(parts[0])] + WithoutReturns(parts[1..])
  }

  function Lines(text: string): seq<string> { WithoutReturns(Strings.Split(text, '\n')) }

  // ----- the parser -----

  datatype State = State(result: map<string, string>, active: Option<string>)

  const EMPTY := State(map[], None)

  /** `s.indexOf(":")`, or the length of a text without one. */
  function Colon(s: string): (n: nat)
    ensures n <= |s| && (n < |s| ==> s[n] == ':') && forall i | 0 <= i < n :: s[i] != ':'
  {
    if s == "" || s[0] == ':' then 0 else 1 + Colon(s[1..])
  }

  predicate Indented(line: string) { line != "" && (line[0] == ' ' || line[0] == '\t') }

  function Step(s: State, line: string): State {
    if Indented(line) && s.active.Some? && s.active.value in s.result then
      s.(result := s.result[s.active.value := Trim(s.result[s.active.value] + " " + Trim(line))])
    else
      var colon := Colon(line);
      if colon == 0 || colon == |line| then s.(active := None)
      else
        var key := Trim(line[..colon]);
        if key !in ALLOWED then s.(active := None)
        else State(s.result[key := Trim(line[colon + 1..])], Some(key))
  }

  function Read(s: State, lines: seq<string>): State {
    if lines == [] then s else Step(Read(s, lines[..|lines| - 1]), lines[|lines| - 1])
  }

  predicate NameChar(c: char) { AlnumChar(c) || c in "._+-" }

  predicate SafeSimple(s: string) {
    1 <= |s| <= 192 && AlnumChar(s[0]) && (forall i | 0 <= i < |s| :: NameChar(s[i])) && !Strings.HasDouble(s, '.')
  }

  predicate SafeVersion(s: string) {
    && 1 <= |s| <= 128 && AlnumChar(s[0]) && (forall i | 0 <= i < |s| :: AlnumChar(s[i]) || s[i] in ".!_+~-")
    && !Strings.HasDouble(s, '.')
  }

  predicate Acceptable(result: map<string, string>) {
    && "Package" in result && SafeSimple(result["Package"])
    && "Version" in result && SafeVersion(result["Version"])
  }

  function Parse(text: string): Option<map<string, string>> {
    var result := Read(EMPTY, Lines(text)).result;
    if text == "" || !Acceptable(result) then None else Some(result)
  }

  /** The white space that `trim` removes, character by character. */
  const SPACES := "\t\n\U{000B}\U{000C}\r \U{00A0}\U{1680}\U{2000}\U{2001}\U{2002}\U{2003}\U{2004}\U{2005}\U{2006}\U{2007}\U{2008}\U{2009}\U{200A}\U{2028}\U{2029}\U{202F}\U{205F}\U{3000}\U{FEFF}"

  lemma SpaceExactly(c: char)
    ensures IsSpace(c) <==> c in SPACES
  {
    if 9 <= c as int <= 13 { assert SPACES[c as int - 9] == c; }
    if 0x2000 <= c as int <= 0x200A { assert SPACES[c as int - 0x2000 + 8] == c; }
    assert SPACES[5] == ' ' && SPACES[6] == '\U{00A0}' && SPACES[7] == '\U{1680}' && SPACES[19] == '\U{2028}';
    assert SPACES[20] == '\U{2029}' && SPACES[21] == '\U{202F}' && SPACES[22] == '\U{205F}';
    assert SPACES[23] == '\U{3000}' && SPACES[24] == '\U{FEFF}';
  }

  /** A text is a description exactly when its fields hold a safe name and a
      safe version, and then it is those fields. */
  lemma ParseExactly(text: string, description: map<string, string>)
    ensures Parse(text) == Some(description) <==>
            && description == Read(EMPTY, Lines(text)).result
            && "Package" in description && SafeSimple(description["Package"])
            && "Version" in description && SafeVersion(description["Version"])
  {
    if text == "" {
      assert Strings.Split(text, '\n') == [""];
      assert Lines(text) == [""] && [""][..0] == [];
      assert Read(EMPTY, [""]) == Step(Read(EMPTY, []), "");
    }
  }

  /** The body of the loop over lines. */
  method ReadLine(before: map<string, string>, last: Option<string>, line: string)
    returns (result: map<string, string>, active: Option<string>)
    requires last.Some? ==> last.value in before
    ensures State(result, active) == Step(State(before, last), line)
    ensures active.Some? ==> active.value in result
  {
    result, active := before, last;
    if Indented(line) && active.Some? {
      result := result[active.value := Trim(result[active.value] + " " + Trim(line))];
      return;
    }
    var separator := Colon(line);
    if separator == 0 || separator == |line| {
      active := None;
      return;
    }
    var key := Trim(line[..separator]);
    if key !in ALLOWED {
      active := None;
      return;
    }
    result := result[key := Trim(line[separator + 1..])];
    active := Some(key);
  }

  method ParseCranDescription(text: string) returns (description: Option<map<string, string>>)
    ensures description == Parse(text)
  {
    if text == "" { return None; }
    var lines := Lines(text);
    var result: map<string, string> := map[];
    var active: Option<string> := None;
    for i := 0 to |lines|
      invariant State(result, active) == Read(EMPTY, lines[..i])
      invariant active.Some? ==> active.value in result
    {
      assert lines[..i + 1][..i] == lines[..i];
      result, active := ReadLine(result, active, lines[i]);
    }
    assert lines[..|lines|] == lines;
    if !Acceptable(result) { return None; }
    return Some(result);
  }

  // ----- a printer -----

  predicate Word(w: string) { w != "" && forall i | 0 <= i < |w| :: !IsSpace(w[i]) }

  type Words = seq<string>

  /** A continuation line: its indentation and its words. */
  datatype Fold = Fold(indent: string, words: Words)

  /** A field, folded: the words on its own line and those of every line after. */
  datatype Field = Field(key: string, words: Words, folds: seq<Fold>)

  predicate AllWords(words: Words) { forall i | 0 <= i < |words| :: Word(words[i]) }

  predicate Printable(f: Field) {
    f.key in ALLOWED && AllWords(f.words) && AllGood(f.folds)
  }

  predicate GoodFold(f: Fold) {
    f.indent != "" && AllWords(f.words) && forall i | 0 <= i < |f.indent| :: f.indent[i] == ' ' || f.indent[i] == '\t'
  }

  predicate AllGood(folds: seq<Fold>) { forall i | 0 <= i < |folds| :: GoodFold(folds[i]) }

  function Spaced(words: Words): string { Strings.Join(words, " ") }

  function FoldLines(folds: seq<Fold>): seq<string> {
    if folds == [] then []
    else FoldLines(folds[..|folds| - 1]) + [folds[|folds| - 1].indent + Spaced(folds[|folds| - 1].words)]
  }

  function FirstLine(f: Field): string { f.key + ":" + if f.words == [] then "" else " " + Spaced(f.words) }

  function FieldLines(f: Field): seq<string> { [FirstLine(f)] + FoldLines(f.folds) }

  function FoldWords(folds: seq<Fold>): Words {
    if folds == [] then [] else FoldWords(folds[..|folds| - 1]) + folds[|folds| - 1].words
  }

  /** What the field says: all its words, separated by single spaces. */
  function ValueOf(f: Field): string { Spaced(f.words + FoldWords(f.folds)) }

  function AllLines(fields: seq<Field>): seq<string> {
    if fields == [] then [] else AllLines(fields[..|fields| - 1]) + FieldLines(fields[|fields| - 1])
  }

  /** Every line with its end: a line feed, or a return and a line feed. */
  function Printed(lines: seq<string>, crlf: seq<bool>): string
    requires |lines| == |crlf|
  {
    if lines == [] then ""
    else lines[0] + LineEnd(crlf[0]) + Printed(lines[1..], crlf[1..])
  }

  function Contents(fields: seq<Field>): map<string, string> {
    if fields == [] then map[]
    else
      var last := fields[|fields| - 1];
      Contents(fields[..|fields| - 1])[last.key := ValueOf(last)]
  }

  // ----- trimming -----

  predicate AllSpace(s: string) { forall i | 0 <= i < |s| :: IsSpace(s[i]) }

  /** No white space at either end. */
  predicate Tight(s: string) { s == "" || (!IsSpace(s[0]) && !IsSpace(s[|s| - 1])) }

  lemma {:induction false} TrimLeftSpace(s: string, t: string)
    requires AllSpace(s) && Tight(t)
    ensures TrimLeft(s + t) == t
  {
    if s == "" {
      assert s + t == t;
    } else {
      assert (s + t)[1..] == s[1..] + t;
      TrimLeftSpace(s[1..], t);
    }
  }

  lemma TrimSpace(s: string, t: string)
    requires AllSpace(s) && Tight(t)
    ensures Trim(s + t) == t
  {
    TrimLeftSpace(s, t);
  }

  lemma TrimTight(t: string)
    requires Tight(t)
    ensures Trim(t) == t
  {
    assert "" + t == t;
    TrimSpace("", t);
  }

  lemma TrimTrailing(t: string)
    requires Tight(t)
    ensures Trim(t + " ") == t
  {
    if t == "" {
      assert t + " " == " " && " "[1..] == "";
      assert TrimLeft(" ") == TrimLeft("") == "";
    } else {
      assert (t + " ")[..|t|] == t;
      assert TrimLeft(t + " ") == t + " ";
      assert TrimRight(t + " ") == TrimRight(t) == t;
    }
  }

  lemma {:induction false} SpacedTight(words: Words)
    requires AllWords(words)
    ensures Tight(Spaced(words)) && (Spaced(words) == "" <==> words == [])
  {
    if |words| > 1 {
      SpacedTight(words[1..]);
      var rest := Spaced(words[1..]);
      assert Spaced(words) == words[0] + " " + rest;
    }
  }

  lemma {:induction false} SpacedConcat(a: Words, b: Words)
    requires a != [] && b != []
    ensures Spaced(a + b) == Spaced(a) + " " + Spaced(b)
  {
    if |a| == 1 {
      Strings.JoinCons(a[0], b, " ");
      assert a == [a[0]];
    } else {
      SpacedConcat(a[1..], b);
      assert a + b == [a[0]] + (a[1..] + b);
      Strings.JoinCons(a[0], a[1..] + b, " ");
      assert a == [a[0]] + a[1..];
    }
  }

  /** Appending a continuation line appends its words. */
  lemma AppendWords(a: Words, b: Words)
    requires AllWords(a) && AllWords(b)
    ensures Trim(Spaced(a) + " " + Spaced(b)) == Spaced(a + b)
  {
    SpacedTight(a);
    SpacedTight(b);
    if b == [] {
      assert Spaced(a) + " " + "" == Spaced(a) + " " && a + b == a;
      TrimTrailing(Spaced(a));
    } else if a == [] {
      assert "" + " " + Spaced(b) == " " + Spaced(b) && a + b == b;
      TrimSpace(" ", Spaced(b));
    } else {
      SpacedConcat(a, b);
      assert AllWords(a + b);
      SpacedTight(a + b);
      TrimTight(Spaced(a + b));
    }
  }

  // ----- one field -----

  lemma {:induction false} ReadConcat(s: State, a: seq<string>, b: seq<string>)
    ensures Read(s, a + b) == Read(Read(s, a), b)
  {
    if b == [] {
      assert a + b == a;
    } else {
      var n := |b| - 1;
      assert (a + b)[..|a + b| - 1] == a + b[..n];
      ReadConcat(s, a, b[..n]);
    }
  }

  lemma KeyFacts(key: string)
    requires key in ALLOWED
    ensures key != "" && ':' !in key && Tight(key) && key[0] != ' ' && key[0] != '\t'
  {
  }

  lemma {:induction false} ColonAfter(key: string, rest: string)
    requires ':' !in key
    ensures Colon(key + ":" + rest) == |key|
  {
    if key != "" {
      assert (key + ":" + rest)[1..] == key[1..] + ":" + rest;
      ColonAfter(key[1..], rest);
    }
  }

  lemma FirstLineRead(s: State, f: Field)
    requires Printable(f)
    ensures Step(s, FirstLine(f)) == State(s.result[f.key := Spaced(f.words)], Some(f.key))
  {
    KeyFacts(f.key);
    SpacedTight(f.words);
    var rest := if f.words == [] then "" else " " + Spaced(f.words);
    var line := FirstLine(f);
    assert line == f.key + ":" + rest;
    ColonAfter(f.key, rest);
    assert line[0] == f.key[0];
    assert line[..|f.key|] == f.key && line[|f.key| + 1..] == rest;
    TrimTight(f.key);
    if f.words == [] { TrimTight(""); } else { TrimSpace(" ", Spaced(f.words)); }
  }

  lemma FoldRead(s: State, key: string, words: Words, fold: Fold)
    requires s.active == Some(key) && key in s.result && s.result[key] == Spaced(words)
    requires AllWords(words) && GoodFold(fold)
    ensures Step(s, fold.indent + Spaced(fold.words)) ==
            State(s.result[key := Spaced(words + fold.words)], Some(key))
  {
    SpacedTight(fold.words);
    TrimSpace(fold.indent, Spaced(fold.words));
    AppendWords(words, fold.words);
    assert (fold.indent + Spaced(fold.words))[0] == fold.indent[0];
  }

  lemma WordsConcat(a: Words, b: Words)
    requires AllWords(a) && AllWords(b)
    ensures AllWords(a + b)
  {
  }

  /** `lines` were read as the words of the field so far. */
  predicate ReadsAs(s: State, key: string, words: Words, lines: seq<string>) {
    AllWords(words) && Read(s, lines) == State(s.result[key := Spaced(words)], Some(key))
  }

  lemma {:induction false} FoldsRead(s: State, key: string, words: Words, folds: seq<Fold>)
    requires ReadsAs(s, key, words, []) && AllGood(folds)
    ensures ReadsAs(s, key, words + FoldWords(folds), FoldLines(folds))
  {
    FoldsSplit(words, folds);
    if folds != [] {
      var front, last := folds[..|folds| - 1], folds[|folds| - 1];
      FoldsRead(s, key, words, front);
      FoldsReadOn(s, key, words + FoldWords(front), FoldLines(front), last);
    }
  }

  lemma FoldsSplit(words: Words, folds: seq<Fold>)
    ensures folds == [] ==> words + FoldWords(folds) == words && FoldLines(folds) == []
    ensures folds != [] ==>
              var front, last := folds[..|folds| - 1], folds[|folds| - 1];
              && words + FoldWords(folds) == words + FoldWords(front) + last.words
              && FoldLines(folds) == FoldLines(front) + [last.indent + Spaced(last.words)]
              && (AllGood(folds) ==> AllGood(front) && GoodFold(last))
  {
  }

  /** One more continuation line. */
  lemma FoldsReadOn(s: State, key: string, done: Words, lines: seq<string>, last: Fold)
    requires ReadsAs(s, key, done, lines) && GoodFold(last)
    ensures ReadsAs(s, key, done + last.words, lines + [last.indent + Spaced(last.words)])
  {
    ReadSnoc(s, lines, last.indent + Spaced(last.words));
    FoldRead(Read(s, lines), key, done, last);
    WordsConcat(done, last.words);
    SetTwice(s.result, key, Spaced(done), Spaced(done + last.words));
  }

  lemma ReadSnoc(s: State, lines: seq<string>, line: string)
    ensures Read(s, lines + [line]) == Step(Read(s, lines), line)
  {
    assert (lines + [line])[..|lines|] == lines;
  }

  lemma SetTwice(m: map<string, string>, key: string, x: string, y: string)
    ensures m[key := x][key := y] == m[key := y]
  {
  }

  lemma FieldRead(s: State, f: Field)
    requires Printable(f)
    ensures Read(s, FieldLines(f)) == State(s.result[f.key := ValueOf(f)], Some(f.key))
  {
    ReadConcat(s, [FirstLine(f)], FoldLines(f.folds));
    assert [FirstLine(f)][..0] == [];
    FirstLineRead(s, f);
    var first := Step(s, FirstLine(f));
    assert Read(s, [FirstLine(f)]) == first;
    SetTwice(s.result, f.key, Spaced(f.words), Spaced(f.words));
    SetTwice(s.result, f.key, Spaced(f.words), ValueOf(f));
    FoldsRead(first, f.key, f.words, f.folds);
  }

  /** Reading all fields, in whatever folding, collects what they say. */
  lemma {:induction false} FieldsRead(fields: seq<Field>)
    requires forall i | 0 <= i < |fields| :: Printable(fields[i])
    ensures Read(EMPTY, AllLines(fields)).result == Contents(fields)
  {
    if fields != [] {
      var n := |fields| - 1;
      FieldsRead(fields[..n]);
      ReadConcat(EMPTY, AllLines(fields[..n]), FieldLines(fields[n]));
      FieldRead(Read(EMPTY, AllLines(fields[..n])), fields[n]);
    }
  }

  // ----- lines of a printed text -----

  predicate OneLine(s: string) { '\n' !in s && '\r' !in s }

  function LineEnd(crlf: bool): string { if crlf then "\r\n" else "\n" }

  lemma LineOfText(line: string, crlf: bool, rest: string)
    requires OneLine(line)
    ensures Lines(line + LineEnd(crlf) + rest) == [line] + Lines(rest)
  {
    var head := line + if crlf then "\r" else "";
    assert line + LineEnd(crlf) + rest == head + ['\n'] + rest;
    Strings.SplitHead(head, '\n', rest);
    var parts := Strings.Split(rest, '\n');
    assert ([head] + parts)[1..] == parts;
    if crlf {
      assert head[|head| - 1] == '\r' && head[..|head| - 1] == line;
    } else {
      assert head == line;
    }
    assert DropReturn(head) == line;
  }

  lemma {:induction false} LinesOfPrinted(lines: seq<string>, crlf: seq<bool>)
    requires |lines| == |crlf| && forall i | 0 <= i < |lines| :: OneLine(lines[i])
    ensures Lines(Printed(lines, crlf)) == lines + [""]
    ensures lines != [] ==> Printed(lines, crlf) != ""
  {
    if lines == [] {
      assert Strings.Split("", '\n') == [""];
    } else {
      var rest := Printed(lines[1..], crlf[1..]);
      LinesOfPrinted(lines[1..], crlf[1..]);
      LineOfText(lines[0], crlf[0], rest);
      assert lines == [lines[0]] + lines[1..];
    }
  }

  lemma {:induction false} SpacedOneLine(words: Words)
    requires AllWords(words)
    ensures OneLine(Spaced(words))
  {
    if words != [] {
      forall i | 0 <= i < |words[0]| ensures words[0][i] != '\n' && words[0][i] != '\r' { assert !IsSpace(words[0][i]); }
      if |words| > 1 { SpacedOneLine(words[1..]); }
    }
  }

  lemma {:induction false} FoldLinesOneLine(folds: seq<Fold>)
    requires AllGood(folds)
    ensures forall l | l in FoldLines(folds) :: OneLine(l)
  {
    if folds != [] {
      FoldLinesOneLine(folds[..|folds| - 1]);
      SpacedOneLine(folds[|folds| - 1].words);
    }
  }

  lemma KeyOneLine(key: string)
    requires key in ALLOWED
    ensures OneLine(key)
  {
  }

  lemma {:induction false} AllLinesOneLine(fields: seq<Field>)
    requires forall i | 0 <= i < |fields| :: Printable(fields[i])
    ensures forall l | l in AllLines(fields) :: OneLine(l)
  {
    if fields != [] {
      var last := fields[|fields| - 1];
      AllLinesOneLine(fields[..|fields| - 1]);
      FoldLinesOneLine(last.folds);
      SpacedOneLine(last.words);
      KeyOneLine(last.key);
    }
  }

  /**
   * The parser undoes the printer: whatever the folding, the indentation and
   * the line ends, a printed record with a valid package name and version is
   * read back as the record.
   */
  lemma ParseUndoesPrint(fields: seq<Field>, crlf: seq<bool>)
    requires forall i | 0 <= i < |fields| :: Printable(fields[i])
    requires |crlf| == |AllLines(fields)| && Acceptable(Contents(fields))
    ensures Parse(Printed(AllLines(fields), crlf)) == Some(Contents(fields))
  {
    AllLinesOneLine(fields);
    FieldsRead(fields);
    ParsePrinted(AllLines(fields), crlf);
  }

  /** Two foldings of the same words are the same record to the parser. */
  lemma FoldingIsInvisible(a: seq<Field>, b: seq<Field>, ra: seq<bool>, rb: seq<bool>)
    requires |a| == |b| && forall i | 0 <= i < |a| ::
      Printable(a[i]) && Printable(b[i]) && a[i].key == b[i].key
      && a[i].words + FoldWords(a[i].folds) == b[i].words + FoldWords(b[i].folds)
    requires |ra| == |AllLines(a)| && |rb| == |AllLines(b)| && Acceptable(Contents(a))
    ensures Parse(Printed(AllLines(a), ra)) == Parse(Printed(AllLines(b), rb))
  {
    SameContents(a, b);
    ParseUndoesPrint(a, ra);
    ParseUndoesPrint(b, rb);
  }

  lemma {:induction false} SameContents(a: seq<Field>, b: seq<Field>)
    requires |a| == |b| && forall i | 0 <= i < |a| ::
      a[i].key == b[i].key && a[i].words + FoldWords(a[i].folds) == b[i].words + FoldWords(b[i].folds)
    ensures Contents(a) == Contents(b)
  {
    if a != [] { SameContents(a[..|a| - 1], b[..|b| - 1]); }
  }

  /** With different keys the record holds each field's words, however folded. */
  lemma {:induction false} ContentsAt(fields: seq<Field>, i: nat)
    requires i < |fields| && forall j, k | 0 <= j < k < |fields| :: fields[j].key != fields[k].key
    ensures fields[i].key in Contents(fields) && Contents(fields)[fields[i].key] == ValueOf(fields[i])
  {
    var n := |fields| - 1;
    if i < n { ContentsAt(fields[..n], i); }
  }

  // ----- fields the parser ignores -----

  /** Where no field is active, this line starts one. */
  predicate Leaks(line: string) { 0 < Colon(line) < |line| && Trim(line[..Colon(line)]) in ALLOWED }

  predicate NoneLeaks(lines: seq<string>) { forall i | 0 <= i < |lines| :: !Leaks(lines[i]) }

  predicate AllIndented(lines: seq<string>) { forall i | 0 <= i < |lines| :: Indented(lines[i]) }

  /** A line that is no part of an allowed field: another field, or no field at all. */
  predicate Foreign(line: string) { !Indented(line) && !Leaks(line) }

  lemma {:induction false} ContinuationsRead(result: map<string, string>, lines: seq<string>)
    requires AllIndented(lines)
    ensures var s := Read(State(result, None), lines);
            if NoneLeaks(lines) then s == State(result, None)
            else s.active.Some? && s.active.value in ALLOWED && s.active.value in s.result
  {
    if lines != [] {
      var front, last := lines[..|lines| - 1], lines[|lines| - 1];
      ContinuationsRead(result, front);
      assert NoneLeaks(lines) <==> NoneLeaks(front) && !Leaks(last);
      assert Indented(last);
    }
  }

  /**
   * A field the parser ignores leaves no trace exactly when none of its
   * continuation lines, read on its own, would start an allowed field. If one
   * does, the rest of the ignored field is read as that field.
   */
  lemma IgnoredFieldLeaks(s: State, header: string, lines: seq<string>)
    requires Foreign(header) && AllIndented(lines)
    ensures Read(s, [header] + lines) == State(s.result, None) <==> NoneLeaks(lines)
    ensures !NoneLeaks(lines) ==>
              var t := Read(s, [header] + lines);
              t.active.Some? && t.active.value in ALLOWED && t.active.value in t.result
  {
    ReadConcat(s, [header], lines);
    assert [header][..0] == [];
    assert Read(s, [header]) == Step(s, header) == State(s.result, None);
    ContinuationsRead(s.result, lines);
  }

  /** A field to keep, or one to skip with the lines that continue it. */
  datatype Item = Kept(field: Field) | Skipped(header: string, lines: seq<string>)

  predicate Harmless(item: Item) {
    match item
    case Kept(field) => Printable(field)
    case Skipped(header, lines) =>
      Foreign(header) && AllIndented(lines) && NoneLeaks(lines) && AllOneLine([header] + lines)
  }

  predicate AllOneLine(lines: seq<string>) { forall i | 0 <= i < |lines| :: OneLine(lines[i]) }

  function ItemLines(item: Item): seq<string> {
    match item
    case Kept(field) => FieldLines(field)
    case Skipped(header, lines) => [header] + lines
  }

  function RecordLines(items: seq<Item>): seq<string> {
    if items == [] then [] else RecordLines(items[..|items| - 1]) + ItemLines(items[|items| - 1])
  }

  function KeptFields(items: seq<Item>): seq<Field> {
    if items == [] then []
    else
      var last := items[|items| - 1];
      KeptFields(items[..|items| - 1]) + if last.Kept? then [last.field] else []
  }

  lemma FieldOneLine(f: Field)
    requires Printable(f)
    ensures AllOneLine(FieldLines(f))
  {
    FoldLinesOneLine(f.folds);
    SpacedOneLine(f.words);
    KeyOneLine(f.key);
  }

  /** Reading a record collects what the kept fields say. */
  lemma {:induction false} RecordRead(items: seq<Item>)
    requires forall i | 0 <= i < |items| :: Harmless(items[i])
    ensures Read(EMPTY, RecordLines(items)).result == Contents(KeptFields(items))
    ensures AllOneLine(RecordLines(items))
  {
    if items != [] {
      var front, last := items[..|items| - 1], items[|items| - 1];
      RecordRead(front);
      assert Harmless(last);
      ReadConcat(EMPTY, RecordLines(front), ItemLines(last));
      ItemRead(Read(EMPTY, RecordLines(front)), KeptFields(front), last);
    }
  }

  lemma ItemRead(s: State, kept: seq<Field>, item: Item)
    requires Harmless(item) && s.result == Contents(kept)
    ensures Read(s, ItemLines(item)).result == Contents(kept + if item.Kept? then [item.field] else [])
    ensures AllOneLine(ItemLines(item))
  {
    match item
    case Kept(field) =>
      FieldRead(s, field);
      FieldOneLine(field);
      assert (kept + [field])[..|kept|] == kept;
    case Skipped(header, lines) =>
      IgnoredFieldLeaks(s, header, lines);
      assert kept + [] == kept;
  }

  /**
   * Whatever fields the parser does not know stand between the printed ones,
   * and however they are folded, the record is that of the printed ones, as
   * long as no continuation line of an unknown field looks like a known field.
   */
  lemma ParseSkipsOthers(items: seq<Item>, crlf: seq<bool>)
    requires forall i | 0 <= i < |items| :: Harmless(items[i])
    requires |crlf| == |RecordLines(items)| && Acceptable(Contents(KeptFields(items)))
    ensures Parse(Printed(RecordLines(items), crlf)) == Some(Contents(KeptFields(items)))
  {
    RecordRead(items);
    ParsePrinted(RecordLines(items), crlf);
  }

  /** A text of whole lines is parsed line by line. */
  lemma ParsePrinted(lines: seq<string>, crlf: seq<bool>)
    requires AllOneLine(lines) && |crlf| == |lines| && Acceptable(Read(EMPTY, lines).result)
    ensures Parse(Printed(lines, crlf)) == Some(Read(EMPTY, lines).result)
  {
    LinesOfPrinted(lines, crlf);
    ReadConcat(EMPTY, lines, [""]);
    assert [""][..0] == [];
    var s := Read(EMPTY, lines);
    assert Read(s, [""]) == Step(s, "");
  }

  /** An indented line that looks like an allowed field, read as that field. */
  lemma LeakedLine(s: State, indent: string, key: string, words: Words)
    requires s.active.None? && key in ALLOWED && AllWords(words) && words != []
    requires indent != "" && forall i | 0 <= i < |indent| :: indent[i] == ' ' || indent[i] == '\t'
    ensures Step(s, indent + key + ":" + (" " + Spaced(words))) == State(s.result[key := Spaced(words)], Some(key))
  {
    KeyFacts(key);
    SpacedTight(words);
    var rest := " " + Spaced(words);
    var line := indent + key + ":" + rest;
    forall i | 0 <= i < |indent + key| ensures (indent + key)[i] != ':' {
      if i >= |indent| { assert (indent + key)[i] == key[i - |indent|]; }
    }
    ColonAfter(indent + key, rest);
    assert line[..|indent + key|] == indent + key && line[|indent + key| + 1..] == rest;
    TrimSpace(indent, key);
    TrimSpace(" ", Spaced(words));
  }

  lemma ReadFour(s: State, a: string, b: string, c: string, d: string)
    ensures Read(s, [a, b, c, d]) == Step(Step(Step(Step(s, a), b), c), d)
  {
    assert [a, b, c, d] == [] + [a] + [b] + [c] + [d];
    ReadSnoc(s, [], a);
    ReadSnoc(s, [a], b);
    ReadSnoc(s, [a, b], c);
    ReadSnoc(s, [a, b, c], d);
    assert [a] + [b] == [a, b] && [a, b] + [c] == [a, b, c] && [a, b, c] + [d] == [a, b, c, d] && [] + [a] == [a];
  }

  lemma PrintedFour(a: string, b: string, c: string, d: string)
    ensures Printed([a, b, c, d], [false, false, false, false]) == a + "\n" + (b + "\n" + (c + "\n" + (d + "\n")))
  {
    var t: string := "";
    PrintedMore(d, [], []);
    PrintedMore(c, [d], [false]);
    PrintedMore(b, [c, d], [false, false]);
    PrintedMore(a, [b, c, d], [false, false, false]);
    assert d + "\n" + t == d + "\n";
  }

  lemma PrintedMore(line: string, lines: seq<string>, crlf: seq<bool>)
    requires |lines| == |crlf|
    ensures Printed([line] + lines, [false] + crlf) == line + "\n" + Printed(lines, crlf)
  {
    assert ([line] + lines)[1..] == lines && ([false] + crlf)[1..] == crlf;
  }

  lemma HeaderSkipped(s: State)
    ensures Step(s, "X: y") == State(s.result, None)
  {
    ColonAfter("X", " y");
    assert "X" + ":" + " y" == "X: y";
    assert "X: y"[..1] == "X" && "X"[0] == 'X';
    TrimTight("X");
  }

  lemma PlainField(s: State, key: string, word: string)
    requires key in ALLOWED && Word(word)
    ensures Step(s, key + ":" + (" " + word)) == State(s.result[key := word], Some(key))
  {
    FirstLineRead(s, Field(key, [word], []));
  }

  lemma LeakedField(s: State, key: string, word: string)
    requires s.active.None? && key in ALLOWED && Word(word)
    ensures Step(s, " " + key + ":" + (" " + word)) == State(s.result[key := word], Some(key))
  {
    LeakedLine(s, " ", key, [word]);
  }

  /** A text whose title comes out of a field the parser does not know. */
  lemma LeakedTitle(a: string, b: string, c: string, d: string)
    requires a == "Package: a" && b == "Version: 1" && c == "X: y" && d == " Title: z"
    ensures Parse(a + "\n" + (b + "\n" + (c + "\n" + (d + "\n")))) ==
            Some(map["Package" := "a", "Version" := "1", "Title" := "z"])
  {
    LeakedRead(a, b, c, d);
    LeakedAccepted(Read(EMPTY, [a, b, c, d]).result);
    PrintedFour(a, b, c, d);
    LeakedLines(a, b, c, d);
    ParsePrinted([a, b, c, d], [false, false, false, false]);
  }

  lemma LeakedAccepted(result: map<string, string>)
    requires result == map["Package" := "a", "Version" := "1", "Title" := "z"]
    ensures Acceptable(result)
  {
  }

  lemma LeakedLines(a: string, b: string, c: string, d: string)
    requires a == "Package: a" && b == "Version: 1" && c == "X: y" && d == " Title: z"
    ensures AllOneLine([a, b, c, d])
  {
  }

  lemma LeakedRead(a: string, b: string, c: string, d: string)
    requires a == "Package: a" && b == "Version: 1" && c == "X: y" && d == " Title: z"
    ensures Read(EMPTY, [a, b, c, d]).result == map["Package" := "a", "Version" := "1", "Title" := "z"]
  {
    ReadFour(EMPTY, a, b, c, d);
    LeakedSpelling(a, b, d);
    LeakedSteps(a, b, c, d);
  }

  lemma LeakedSpelling(a: string, b: string, d: string)
    requires a == "Package: a" && b == "Version: 1" && d == " Title: z"
    ensures "Package" + ":" + (" " + "a") == a && "Version" + ":" + (" " + "1") == b
    ensures " " + "Title" + ":" + (" " + "z") == d
  {
  }

  lemma LeakedSteps(a: string, b: string, c: string, d: string)
    requires "Package" + ":" + (" " + "a") == a && "Version" + ":" + (" " + "1") == b
    requires c == "X: y" && " " + "Title" + ":" + (" " + "z") == d
    ensures Step(Step(Step(Step(EMPTY, a), b), c), d).result == map["Package" := "a", "Version" := "1", "Title" := "z"]
  {
    PlainField(EMPTY, "Package", "a");
    PlainField(Step(EMPTY, a), "Version", "1");
    HeaderSkipped(Step(Step(EMPTY, a), b));
    LeakedField(Step(Step(Step(EMPTY, a), b), c), "Title", "z");
  }
}
