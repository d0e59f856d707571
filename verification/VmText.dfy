/** The compiler's text: programs print to source that compiles back to them. */
module VmText {
  import opened Basics
  import opened HardenedVm

  // ------------------------------------------------------ splitting, joining

  /** A non-empty text without separators. */
  predicate Word(w: string, isSeparator: char -> bool) {
    w != [] && forall i :: 0 <= i < |w| ==> !isSeparator(w[i])
  }

  lemma {:induction false} PieceStops(w: string, rest: string, isSeparator: char -> bool)
    requires forall i :: 0 <= i < |w| ==> !isSeparator(w[i])
    requires rest == [] || isSeparator(rest[0])
    ensures Piece(w + rest, isSeparator) == |w|
  {
    if w == [] {
      assert w + rest == rest;
    } else {
      assert (w + rest)[1..] == w[1..] + rest;
      PieceStops(w[1..], rest, isSeparator);
    }
  }

  lemma {:induction false} PieceIsClear(s: string, isSeparator: char -> bool)
    ensures forall i :: 0 <= i < Piece(s, isSeparator) ==> !isSeparator(s[i])
  {
    if s != [] && !isSeparator(s[0]) {
      PieceIsClear(s[1..], isSeparator);
      forall i | 0 <= i < Piece(s, isSeparator) ensures !isSeparator(s[i]) {
        assert i == 0 || s[i] == s[1..][i - 1];
      }
    }
  }

  /** Splitting joined words gives the words. */
  lemma {:induction false} SplitJoined(words: seq<string>, isSeparator: char -> bool, separator: char)
    requires isSeparator(separator) && forall w :: w in words ==> Word(w, isSeparator)
    ensures Fields(Join(words, separator), isSeparator) == words
    decreases |words|
  {
    if words != [] {
      var w, s := words[0], Join(words, separator);
      assert w in words;
      if |words| == 1 {
        PieceStops(w, [], isSeparator);
        assert w + [] == w == s && s[..|w|] == w && s[|w|..] == [];
      } else {
        var rest := Join(words[1..], separator);
        SplitJoined(words[1..], isSeparator, separator);
        PieceStops(w, [separator] + rest, isSeparator);
        assert s == w + ([separator] + rest) && s[..|w|] == w && s[|w|..] == [separator] + rest;
        assert s[0] == w[0] && ([separator] + rest)[1..] == rest;
        assert Fields([separator] + rest, isSeparator) == Fields(rest, isSeparator);
      }
    }
  }

  /** Splitting finds words of the text. */
  lemma {:induction false} PiecesAreWords(s: string, isSeparator: char -> bool)
    ensures forall w :: w in Fields(s, isSeparator) ==> Word(w, isSeparator) && forall i :: 0 <= i < |w| ==> w[i] in s
    decreases |s|
  {
    if s != [] {
      if isSeparator(s[0]) {
        PiecesAreWords(s[1..], isSeparator);
      } else {
        var n := Piece(s, isSeparator);
        PieceIsClear(s, isSeparator);
        PiecesAreWords(s[n..], isSeparator);
      }
    }
  }

  // ------------------------------------------------------------ disassembly

  function WordOf(op: OpCode): string {
    match op
    case Set => "SET"
    case Get => "GET"
    case Add => "ADD"
    case Sub => "SUB"
    case Eq => "EQ"
    case Neq => "NEQ"
    case Jmp => "JMP"
    case JmpIf => "JMPIF"
    case Call => "CALL"
    case Revert => "REVERT"
  }

  /** The words of an instruction; a revert holds its message as one operand. */
  function Words(i: Instruction): seq<string> {
    [WordOf(i.op)] + if i.op == Revert && i.args != [] then Fields(i.args[0], IsSpace) else i.args
  }

  function Line(i: Instruction): string { Join(Words(i), ' ') }

  function Lines(p: Program): seq<string> {
    if p == [] then [] else Lines(p[..|p| - 1]) + [Line(p[|p| - 1])]
  }

  function Disassemble(p: Program): string { Join(Lines(p), '\n') }

  // -------------------------------------------------------------- round trip

  predicate Breaks(c: char) { IsSpace(c) || EndsLine(c) }

  /** Compiled from words that hold neither spaces nor line ends. */
  ghost predicate Printable(i: Instruction) {
    exists words: seq<string> :: Compiles(words, i)
  }

  ghost predicate Compiles(words: seq<string>, i: Instruction) {
    words != [] && (forall w :: w in words ==> Word(w, Breaks)) && CompileLine(words) == Some(i)
  }

  lemma NamesAreRead(op: OpCode)
    ensures OpOf(Upper(WordOf(op))) == Some(op) && Word(WordOf(op), Breaks)
  {
    assert Upper(WordOf(op)) == WordOf(op);
  }

  lemma SpacesOnly(words: seq<string>)
    requires forall w :: w in words ==> Word(w, Breaks)
    ensures Fields(Join(words, ' '), IsSpace) == words
  {
    SplitJoined(words, IsSpace, ' ');
  }

  /** The words an instruction prints as compile to it again. */
  lemma WordsCompile(words: seq<string>, i: Instruction)
    requires Compiles(words, i)
    ensures Compiles(Words(i), i)
  {
    hide OpOf, Upper, Fields, Join, WordOf;
    var args := words[1..];
    forall a | a in args ensures Word(a, Breaks) {
    }
    SpacesOnly(args);
    NamesAreRead(i.op);
    assert Words(i) == [WordOf(i.op)] + args;
    assert Words(i)[1..] == args;
  }

  lemma {:induction false} JoinHolds(words: seq<string>)
    requires words != [] && forall w :: w in words ==> Word(w, Breaks)
    ensures Word(Join(words, ' '), EndsLine)
    decreases |words|
  {
    assert words[0] in words;
    if |words| > 1 {
      JoinHolds(words[1..]);
    }
  }

  lemma LineCompiles(i: Instruction)
    requires Printable(i)
    ensures Fields(Line(i), IsSpace) == Words(i) != [] && CompileLine(Words(i)) == Some(i) && Word(Line(i), EndsLine)
  {
    var words :| Compiles(words, i);
    WordsCompile(words, i);
    SpacesOnly(Words(i));
    JoinHolds(Words(i));
  }

  lemma {:induction false} LinesCompile(p: Program)
    requires forall i :: i in p ==> Printable(i)
    ensures CompileLines(Lines(p)) == Some(p) && |Lines(p)| == |p|
    ensures forall l :: l in Lines(p) ==> Word(l, EndsLine)
    decreases |p|
  {
    hide CompileLine, Fields, Line, Word, Words, Printable;
    if p != [] {
      var front, last := p[..|p| - 1], p[|p| - 1];
      assert last in p;
      LinesCompile(front);
      LineCompiles(last);
      assert Lines(p)[..|p| - 1] == Lines(front);
      assert front + [last] == p;
    }
  }

  lemma WordsOfLine(line: string)
    requires Word(line, EndsLine)
    ensures forall w :: w in Fields(line, IsSpace) ==> Word(w, Breaks)
  {
    PiecesAreWords(line, IsSpace);
  }

  lemma {:induction false} CompiledIsPrintable(lines: seq<string>)
    requires (forall l :: l in lines ==> Word(l, EndsLine)) && CompileLines(lines).Some?
    ensures forall i :: i in CompileLines(lines).value ==> Printable(i)
    decreases |lines|
  {
    hide CompileLine, Fields;
    if lines != [] {
      var front, last := lines[..|lines| - 1], lines[|lines| - 1];
      assert last in lines;
      CompiledIsPrintable(front);
      WordsOfLine(last);
      var words := Fields(last, IsSpace);
      if words != [] {
        assert Compiles(words, CompileLine(words).value);
      }
    }
  }

  /** Every compiled program prints to source text that compiles to it again, with
      one line an instruction. */
  lemma DisassemblyCompiles(source: string)
    requires Compile(source).Some?
    ensures Compile(Disassemble(Compile(source).value)) == Compile(source)
  {
    hide CompileLines, Lines, Join, Fields, JumpsOk, Printable;
    var lines, p := Fields(source, EndsLine), Compile(source).value;
    PiecesAreWords(source, EndsLine);
    CompiledIsPrintable(lines);
    LinesCompile(p);
    SplitJoined(Lines(p), EndsLine, '\n');
    CompiledIsWellFormed(source);
  }

  // ---------------------------------------------------------------- numerals

  function Numeral(n: nat): string {
    (if n < 10 then "" else Numeral(n / 10)) + [('0' as int + n % 10) as char]
  }

  lemma {:induction false} DigitsRead(n: nat)
    ensures Digits(Numeral(n)) == Some(n) && Numeral(n) != [] && '0' <= Numeral(n)[0] <= '9'
  {
    var s := Numeral(n);
    if n >= 10 {
      DigitsRead(n / 10);
      assert s[..|s| - 1] == Numeral(n / 10);
    } else {
      assert s[..|s| - 1] == "";
    }
  }

  /** Decimal numerals are read back, with a sign or without. */
  lemma NumeralsAreRead(n: nat)
    ensures Atoi(Numeral(n)) == Atoi("+" + Numeral(n)) == Some(n) && Atoi("-" + Numeral(n)) == Some(0 - n)
  {
    DigitsRead(n);
    assert ("-" + Numeral(n))[1..] == ("+" + Numeral(n))[1..] == Numeral(n);
  }
}
