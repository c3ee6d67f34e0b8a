// The command-line parser of the shell.
module Tokenizer {

  import opened CString

  const MAXLINE := 1024
  const MAXARGS := 128

  // ---- what a line means ----

  function Skip(t: string): (r: string)
    ensures |r| <= |t|
  {
    if t != [] && t[0] == ' ' then Skip(t[1..]) else t
  }

  // Position of the first c, or the length.
  function IndexOf(t: string, c: char): (k: nat)
    ensures k <= |t|
  {
    if t == [] || t[0] == c then 0 else 1 + IndexOf(t[1..], c)
  }

  function Words(t: string): seq<string>
    decreases |t|, 1, 0
  {
    WordsAt(Skip(t))
  }

  // A word ends at a space, or where its quote closes.
  function WordsAt(u: string): seq<string>
    decreases |u|, 0, 1
  {
    if u != [] && u[0] == '\'' then Cut(u[1..], '\'') else Cut(u, ' ')
  }

  // The word up to the first c, and the words behind it; text without a c is dropped.
  function Cut(v: string, c: char): seq<string>
    decreases |v|, 0, 0
  {
    var k := IndexOf(v, c);
    if k == |v| then [] else [v[..k]] + Words(v[k + 1..])
  }

  // The arguments of a command, and whether it is to run in the background.
  datatype Command = Command(args: seq<string>, background: bool)

  predicate Ampersand(word: string) { word != [] && word[0] == '&' }

  // A last word that begins with '&' asks for a background job; so does a blank line.
  function Interpret(words: seq<string>): Command {
    if words == [] then Command([], true)
    else if Ampersand(words[|words| - 1]) then Command(words[..|words| - 1], true)
    else Command(words, false)
  }

  // The line with its last character, the newline, replaced by a space.
  function Spaced(cmdline: string): (line: string)
    requires cmdline != []
    ensures |line| == |cmdline|
  {
    cmdline[..|cmdline| - 1] + " "
  }

  // ---- printing a list of arguments ----

  datatype Word = Bare(text: string) | Quoted(text: string)
  {
    predicate Printable() {
      match this
      case Bare(text) => text != [] && text[0] != '\'' && ' ' !in text
      case Quoted(text) => '\'' !in text
    }

    function Shown(): string { if Bare? then text else "'" + text + "'" }
  }

  function Spaces(n: nat): (r: string)
    ensures |r| == n && forall i :: 0 <= i < n ==> r[i] == ' '
  {
    if n == 0 then [] else " " + Spaces(n - 1)
  }

  // Each word with one or more spaces behind it.
  function Print(words: seq<Word>, gaps: seq<nat>): string
    requires |words| == |gaps|
  {
    if words == [] then [] else words[0].Shown() + Spaces(1 + gaps[0]) + Print(words[1..], gaps[1..])
  }

  function Texts(words: seq<Word>): (r: seq<string>)
    ensures |r| == |words| && forall i :: 0 <= i < |words| ==> r[i] == words[i].text
  {
    if words == [] then [] else [words[0].text] + Texts(words[1..])
  }

  lemma {:induction false} SkipSpaces(n: nat, t: string)
    ensures Skip(Spaces(n) + t) == Skip(t)
  {
    if n == 0 {
      assert Spaces(n) + t == t;
    } else {
      SkipSpaces(n - 1, t);
      assert (Spaces(n) + t)[1..] == Spaces(n - 1) + t;
    }
  }

  lemma {:induction false} IndexAfter(t: string, c: char, rest: string)
    requires c !in t
    ensures IndexOf(t + [c] + rest, c) == |t|
  {
    if t == [] {
      assert (t + [c] + rest)[0] == c;
    } else {
      IndexAfter(t[1..], c, rest);
      assert (t + [c] + rest)[1..] == t[1..] + [c] + rest;
    }
  }

  lemma BareIsRead(text: string, rest: string)
    requires Bare(text).Printable()
    ensures WordsAt(text + [' '] + rest) == [text] + Words(rest)
  {
    var u := text + [' '] + rest;
    IndexAfter(text, ' ', rest);
    assert u[|text| + 1..] == rest && u[..|text|] == text;
  }

  lemma QuotedIsRead(text: string, rest: string)
    requires Quoted(text).Printable()
    ensures WordsAt("'" + text + "'" + rest) == [text] + Words(rest)
  {
    var u, v := "'" + text + "'" + rest, text + ['\''] + rest;
    assert u[1..] == v;
    IndexAfter(text, '\'', rest);
    assert v[|text| + 1..] == rest && v[..|text|] == text;
  }

  lemma BareThenSpaces(text: string, g: nat, rest: string)
    ensures text + Spaces(1 + g) + rest == text + [' '] + (Spaces(g) + rest)
  {
    assert Spaces(1 + g) == " " + Spaces(g);
  }

  lemma Regroup(first: string, gap: string, rest: string)
    ensures first + gap + rest == first + (gap + rest)
  {
  }

  lemma PrintFirst(words: seq<Word>, gaps: seq<nat>, rest: string)
    requires |words| == |gaps| && words != [] && words[0].Printable() && rest == Print(words[1..], gaps[1..])
    ensures Print(words, gaps) == Closed(words[0]) + (Spaces(if words[0].Bare? then gaps[0] else 1 + gaps[0]) + rest)
  {
    var w, g := words[0], gaps[0];
    assert Print(words, gaps) == w.Shown() + Spaces(1 + g) + rest;
    if w.Bare? {
      BareThenSpaces(w.text, g, rest);
    } else {
      Regroup(w.Shown(), Spaces(1 + g), rest);
    }
  }

  function Closed(w: Word): string { if w.Bare? then w.text + [' '] else "'" + w.text + "'" }

  lemma FirstIsRead(w: Word, tail: string)
    requires w.Printable()
    ensures Words(Closed(w) + tail) == [w.text] + Words(tail)
  {
    if w.Bare? {
      assert w.text[0] in w.text;
      BareIsRead(w.text, tail);
    } else {
      QuotedIsRead(w.text, tail);
    }
  }

  lemma LeadingSpaces(n: nat, line: string, more: string)
    ensures Words(Spaces(n) + line + more) == Words(line + more)
  {
    Regroup(Spaces(n), line, more);
    SkipSpaces(n, line + more);
  }

  lemma ReadOne(w: Word, line: string, rest: string, more: string)
    requires w.Printable() && line == Closed(w) + rest
    ensures Words(line + more) == [w.text] + Words(rest + more)
  {
    Regroup(Closed(w), rest, more);
    FirstIsRead(w, rest + more);
  }

  // Printed words are read back, whatever number of spaces stands before, between and after them, and
  // whatever follows.
  lemma {:induction false} RoundTrip(words: seq<Word>, gaps: seq<nat>, lead: nat, more: string)
    requires |words| == |gaps| && forall w :: w in words ==> w.Printable()
    ensures Words(Spaces(lead) + Print(words, gaps) + more) == Texts(words) + Words(more)
    decreases |words|
  {
    LeadingSpaces(lead, Print(words, gaps), more);
    if words == [] {
      assert [] + more == more;
    } else {
      var w, rest := words[0], Print(words[1..], gaps[1..]);
      PrintFirst(words, gaps, rest);
      var gap := if w.Bare? then gaps[0] else 1 + gaps[0];
      RoundTrip(words[1..], gaps[1..], gap, more);
      ReadOne(w, Print(words, gaps), Spaces(gap) + rest, more);
    }
  }

  // Text behind a quote that nothing closes is dropped.
  lemma UnclosedQuote(text: string, lead: nat)
    requires '\'' !in text
    ensures Words(Spaces(lead) + ("'" + text)) == []
  {
    var u := "'" + text;
    SkipSpaces(lead, u);
    assert Skip(u) == u && u[1..] == text;
    Absent(text, '\'');
    assert WordsAt(u) == Cut(text, '\'') == [];
  }

  // And so is a last word with no space behind it.
  lemma UnclosedWord(text: string, lead: nat)
    requires ' ' !in text && (text != [] ==> text[0] != '\'')
    ensures Words(Spaces(lead) + text) == []
  {
    SkipSpaces(lead, text);
    assert Skip(text) == text by {
      assert text != [] ==> text[0] in text;
    }
    Absent(text, ' ');
    assert WordsAt(text) == Cut(text, ' ') == [];
  }

  lemma {:induction false} Absent(t: string, c: char)
    requires c !in t
    ensures IndexOf(t, c) == |t|
  {
    if t != [] {
      Absent(t[1..], c);
    }
  }

  lemma {:induction false} PrintEndsInSpace(words: seq<Word>, gaps: seq<nat>)
    requires |words| == |gaps| && words != []
    ensures Print(words, gaps) != [] && Print(words, gaps)[|Print(words, gaps)| - 1] == ' '
    decreases |words|
  {
    if |words| > 1 {
      PrintEndsInSpace(words[1..], gaps[1..]);
    } else {
      assert Print(words, gaps) == words[0].Shown() + Spaces(1 + gaps[0]);
    }
  }

  // What a user types: the printed words, with a newline as the last of the spaces.
  function Typed(words: seq<Word>, gaps: seq<nat>, lead: nat): string
    requires |words| == |gaps| && (words == [] ==> lead > 0)
  {
    var line := Spaces(lead) + Print(words, gaps);
    line[..|line| - 1] + "\n"
  }

  lemma SpacedTyped(words: seq<Word>, gaps: seq<nat>, lead: nat)
    requires |words| == |gaps| && (words == [] ==> lead > 0)
    ensures Spaced(Typed(words, gaps, lead)) == Spaces(lead) + Print(words, gaps)
  {
    var line := Spaces(lead) + Print(words, gaps);
    if words != [] {
      PrintEndsInSpace(words, gaps);
    }
    assert line[|line| - 1] == ' ';
    assert line == line[..|line| - 1] + " ";
  }

  // Typed words are parsed back, less a last one that begins with '&', which is dropped exactly
  // when a background job is reported; a blank line reports one as well.
  lemma TypedIsParsed(words: seq<Word>, gaps: seq<nat>, lead: nat)
    requires |words| == |gaps| && (words == [] ==> lead > 0) && forall w :: w in words ==> w.Printable()
    ensures var c, texts := Interpret(Words(Spaced(Typed(words, gaps, lead)))), Texts(words);
      && (c.background <==> texts == [] || Ampersand(texts[|texts| - 1]))
      && c.args == if c.background && texts != [] then texts[..|texts| - 1] else texts
  {
    SpacedTyped(words, gaps, lead);
    RoundTrip(words, gaps, lead, []);
    assert Spaces(lead) + Print(words, gaps) + [] == Spaces(lead) + Print(words, gaps);
    assert Texts(words) + Words([]) == Texts(words);
  }

  // ---- the same reading by a cursor in the line ----

  function SkipFrom(line: string, i: nat): (q: nat)
    requires i <= |line|
    ensures i <= q <= |line| && (q < |line| ==> line[q] != ' ')
    decreases |line| - i
  {
    if i < |line| && line[i] == ' ' then SkipFrom(line, i + 1) else i
  }

  function FindCharFrom(line: string, i: nat, c: char): (d: nat)
    requires i <= |line|
    ensures i <= d <= |line| && (d < |line| ==> line[d] == c)
    decreases |line| - i
  {
    if i == |line| || line[i] == c then i else FindCharFrom(line, i + 1, c)
  }

  predicate Quote(line: string, q: nat) { q < |line| && line[q] == '\'' }

  // Where the word behind the blanks at i starts, and its delimiter.
  function StartFrom(line: string, i: nat): (start: nat)
    requires i <= |line|
    ensures i <= start <= |line|
  {
    var q := SkipFrom(line, i);
    if Quote(line, q) then q + 1 else q
  }

  function DelimFrom(line: string, i: nat): (d: nat)
    requires i <= |line|
    ensures StartFrom(line, i) <= d <= |line|
  {
    FindCharFrom(line, StartFrom(line, i), if Quote(line, SkipFrom(line, i)) then '\'' else ' ')
  }

  function WordsFrom(line: string, i: nat): seq<string>
    requires i <= |line|
    decreases |line| - i
  {
    var d := DelimFrom(line, i);
    if d == |line| then [] else [line[StartFrom(line, i)..d]] + WordsFrom(line, d + 1)
  }

  lemma {:induction false} SkipByCursor(line: string, i: nat)
    requires i <= |line|
    ensures Skip(line[i..]) == line[SkipFrom(line, i)..]
    decreases |line| - i
  {
    if i < |line| && line[i] == ' ' {
      SkipByCursor(line, i + 1);
      assert line[i..][1..] == line[i + 1..];
    }
  }

  lemma {:induction false} FindByCursor(line: string, i: nat, c: char)
    requires i <= |line|
    ensures FindCharFrom(line, i, c) == i + IndexOf(line[i..], c)
    decreases |line| - i
  {
    if i < |line| && line[i] != c {
      FindByCursor(line, i + 1, c);
      assert line[i..][1..] == line[i + 1..];
    }
  }

  lemma CutByCursor(line: string, i: nat, c: char)
    requires i <= |line|
    ensures var d := FindCharFrom(line, i, c);
      Cut(line[i..], c) == if d == |line| then [] else [line[i..d]] + Words(line[d + 1..])
  {
    var d, v := FindCharFrom(line, i, c), line[i..];
    FindByCursor(line, i, c);
    if d < |line| {
      assert v[..d - i] == line[i..d] && v[d - i + 1..] == line[d + 1..];
    }
  }

  lemma WordsAtQuote(line: string, q: nat)
    requires q <= |line|
    ensures WordsAt(line[q..]) == if Quote(line, q) then Cut(line[q + 1..], '\'') else Cut(line[q..], ' ')
  {
    if q < |line| {
      assert line[q..][0] == line[q] && line[q..][1..] == line[q + 1..];
    }
  }

  lemma WordsSkip(line: string, i: nat)
    requires i <= |line|
    ensures Words(line[i..]) == WordsAt(line[SkipFrom(line, i)..])
  {
    SkipByCursor(line, i);
  }

  lemma WordsAtByCursor(line: string, i: nat)
    requires i <= |line|
    ensures var start, d := StartFrom(line, i), DelimFrom(line, i);
      Words(line[i..]) == if d == |line| then [] else [line[start..d]] + Words(line[d + 1..])
  {
    var q := SkipFrom(line, i);
    WordsSkip(line, i);
    WordsAtQuote(line, q);
    if Quote(line, q) {
      CutByCursor(line, q + 1, '\'');
    } else {
      CutByCursor(line, q, ' ');
    }
  }

  lemma {:induction false} WordsByCursor(line: string, i: nat)
    requires i <= |line|
    ensures WordsFrom(line, i) == Words(line[i..])
    decreases |line| - i
  {
    WordsAtByCursor(line, i);
    if DelimFrom(line, i) < |line| {
      WordsByCursor(line, DelimFrom(line, i) + 1);
    }
  }

  // ---- the parser, on a buffer it cuts up in place ----

  // From index p on, the buffer still holds the line and the NUL behind it.
  ghost predicate Holds(buf: seq<char>, line: string, p: nat) {
    && p <= |line| < |buf| && NUL !in line && buf[|line|] == NUL
    && forall i :: p <= i < |line| ==> buf[i] == line[i]
  }

  // The text stands in the buffer before index p, with a NUL behind it.
  ghost predicate Stands(buf: seq<char>, offset: int, text: string, p: nat) {
    0 <= offset && offset + |text| < p <= |buf| && HasString(buf, offset, text)
  }

  // All words read so far stand in the buffer, where argv says.
  ghost predicate AllStand(buf: seq<char>, argv: seq<int>, words: seq<string>, p: nat) {
    |words| <= |argv| && forall k :: 0 <= k < |words| ==> Stands(buf, argv[k], words[k], p)
  }

  // Cutting the buffer behind a word leaves the word as a string, and the words before it as they were.
  lemma CutHere(buf: seq<char>, line: string, p: nat, start: nat, d: nat)
    requires Holds(buf, line, p) && p <= start <= d < |line|
    ensures Holds(buf[d := NUL], line, d + 1) && Stands(buf[d := NUL], start, line[start..d], d + 1)
  {
    assert forall j :: 0 <= j < |line[start..d]| ==> line[start..d][j] == line[start + j];
  }

  lemma StandsStill(buf: seq<char>, offset: int, text: string, p: nat, d: nat)
    requires Stands(buf, offset, text, p) && p <= d < |buf|
    ensures Stands(buf[d := NUL], offset, text, d + 1)
  {
  }

  lemma StandToTheEnd(buf: seq<char>, argv: seq<int>, words: seq<string>, p: nat)
    requires AllStand(buf, argv, words, p) && p <= |buf|
    ensures AllStand(buf, argv, words, |buf|)
  {
  }

  lemma OneMoreWord(line: string, all: seq<string>, words: seq<string>, p: nat, start: nat, d: nat)
    returns (more: seq<string>)
    requires p <= |line| && start == StartFrom(line, p) && d == DelimFrom(line, p) < |line|
    requires all == words + WordsFrom(line, p)
    ensures more == words + [line[start..d]] && |more| <= |all|
    ensures all == more + WordsFrom(line, d + 1)
  {
    more := words + [line[start..d]];
  }

  class Shell {
    const buffer: array<char>

    constructor ()
      ensures buffer.Length == MAXLINE && fresh(buffer)
    {
      buffer := new char[MAXLINE](_ => NUL);
    }

    // strcpy into the buffer, with the trailing newline replaced.
    method Load(cmdline: string) returns (ghost line: string)
      requires 0 < |cmdline| < MAXLINE == buffer.Length && NUL !in cmdline
      modifies buffer
      ensures line == Spaced(cmdline) && Holds(buffer[..], line, 0)
    {
      var n := |cmdline|;
      forall i | 0 <= i < n {
        buffer[i] := cmdline[i];
      }
      buffer[n] := NUL;
      buffer[n - 1] := ' ';
      line := Spaced(cmdline);
    }

    // while (*buf && (*buf == ' ')) buf++
    method SkipBlanks(ghost line: string, p: nat) returns (q: nat)
      requires Holds(buffer[..], line, p)
      ensures q == SkipFrom(line, p)
    {
      q := p;
      while buffer[q] != NUL && buffer[q] == ' '
        invariant p <= q <= |line| && SkipFrom(line, q) == SkipFrom(line, p)
        decreases |line| - q
      {
        q := q + 1;
      }
    }

    // strchr, as an index
    method Strchr(ghost line: string, p: nat, c: char) returns (d: int)
      requires Holds(buffer[..], line, p) && c != NUL
      ensures d == if FindCharFrom(line, p, c) == |line| then NULL else FindCharFrom(line, p, c)
    {
      d := p;
      while buffer[d] != NUL && buffer[d] != c
        invariant p <= d <= |line| && FindCharFrom(line, d, c) == FindCharFrom(line, p, c)
        decreases |line| - d
      {
        d := d + 1;
      }
      if buffer[d] == NUL {
        d := NULL;
      }
    }

    // The next word at or after p: where it starts and its delimiter.
    method Delimit(ghost line: string, p: nat) returns (start: nat, delim: int)
      requires Holds(buffer[..], line, p)
      ensures start == StartFrom(line, p)
      ensures delim == if DelimFrom(line, p) == |line| then NULL else DelimFrom(line, p)
    {
      start := SkipBlanks(line, p);
      if buffer[start] == '\'' {
        start := start + 1;
        delim := Strchr(line, start, '\'');
      } else {
        delim := Strchr(line, start, ' ');
      }
    }

    // argv[argc] = buf; *delim = NUL
    method TakeWord(ghost line: string, argv: array<int>, argc: nat, ghost words: seq<string>, ghost p: nat,
                    start: nat, delim: nat)
      requires Holds(buffer[..], line, p) && p <= start <= delim < |line| && argc == |words| < argv.Length
      requires AllStand(buffer[..], argv[..], words, p)
      modifies buffer, argv
      ensures Holds(buffer[..], line, delim + 1)
      ensures AllStand(buffer[..], argv[..], words + [line[start..delim]], delim + 1)
    {
      ghost var buf, offsets := buffer[..], argv[..];
      CutHere(buf, line, p, start, delim);
      argv[argc] := start;
      buffer[delim] := NUL;
      assert buffer[..] == buf[delim := NUL] && argv[..] == offsets[argc := start];
      forall k | 0 <= k < argc ensures Stands(buffer[..], argv[k], words[k], delim + 1) {
        StandsStill(buf, offsets[k], words[k], p, delim);
      }
    }

    // One turn of the loop that fills argv: the word found is taken, and the next one looked for.
    method OneWord(ghost line: string, argv: array<int>, argc: nat, ghost all: seq<string>, ghost words: seq<string>,
                   ghost p: nat, start: nat, delim: nat) returns (ghost more: seq<string>, next: nat, nextDelim: int)
      requires Holds(buffer[..], line, p) && start == StartFrom(line, p) && delim == DelimFrom(line, p) < |line|
      requires all == words + WordsFrom(line, p) && argc == |words| && |all| < argv.Length
      requires AllStand(buffer[..], argv[..], words, p)
      modifies buffer, argv
      ensures Holds(buffer[..], line, delim + 1) && next == StartFrom(line, delim + 1)
      ensures nextDelim == if DelimFrom(line, delim + 1) == |line| then NULL else DelimFrom(line, delim + 1)
      ensures all == more + WordsFrom(line, delim + 1) && |more| == argc + 1
      ensures AllStand(buffer[..], argv[..], more, delim + 1)
    {
      more := OneMoreWord(line, all, words, p, start, delim);
      TakeWord(line, argv, argc, words, p, start, delim);
      next, nextDelim := Delimit(line, delim + 1);
    }

    // The loop that fills argv.
    method Split(ghost line: string, argv: array<int>) returns (argc: nat, ghost words: seq<string>)
      requires Holds(buffer[..], line, 0) && |WordsFrom(line, 0)| < argv.Length
      modifies buffer, argv
      ensures words == WordsFrom(line, 0) && argc == |words| && AllStand(buffer[..], argv[..], words, buffer.Length)
    {
      var p := 0;
      var start, delim := Delimit(line, p);
      argc, words := 0, [];
      ghost var all := WordsFrom(line, 0);
      while delim != NULL
        invariant Holds(buffer[..], line, p) && start == StartFrom(line, p)
        invariant delim == if DelimFrom(line, p) == |line| then NULL else DelimFrom(line, p)
        invariant all == words + WordsFrom(line, p) && argc == |words|
        invariant AllStand(buffer[..], argv[..], words, p)
        decreases |line| - p
      {
        ghost var more;
        var next, nextDelim;
        more, next, nextDelim := OneWord(line, argv, argc, all, words, p, start, delim);
        words, argc, p := more, argc + 1, delim + 1;
        start, delim := next, nextDelim;
      }
      StandToTheEnd(buffer[..], argv[..], words, p);
    }

    method Parseline(cmdline: string, argv: array<int>) returns (argc: nat, bg: bool)
      requires 0 < |cmdline| < MAXLINE == buffer.Length && NUL !in cmdline
      requires argv.Length == MAXARGS && |Words(Spaced(cmdline))| < MAXARGS
      modifies buffer, argv
      ensures var c := Interpret(Words(Spaced(cmdline)));
        && bg == c.background && argc == |c.args| && argc < MAXARGS && argv[argc] == NULL
        && forall k :: 0 <= k < argc ==> StringAt(buffer[..], argv[k]) == c.args[k]
    {
      ghost var line := Load(cmdline);
      WordsByCursor(line, 0);
      assert line[0..] == line;
      ghost var words;
      argc, words := Split(line, argv);
      argv[argc] := NULL;
      forall k | 0 <= k < argc ensures StringAt(buffer[..], argv[k]) == words[k] {
        StringIs(buffer[..], argv[k], words[k]);
      }
      if argc == 0 {
        bg := true;
      } else {
        bg := buffer[argv[argc - 1]] == '&';
        if bg {
          argc := argc - 1;
          argv[argc] := NULL;
        }
      }
    }
  }
}
