/** The printer of src/shell.c and the tokenizer of src/util.c undo each other on exactly one
    domain, and the two ways of quoting a parameter agree. */
module RoundTrip {
  import opened Options
  import opened Util
  import opened Shell

  // -------------------------------------------------------------- the domain

  /** Every backslash is followed by a backslash, a blank or a double quote of its own word. */
  predicate Escapable(w: string) {
    forall k :: 0 <= k < |w| && w[k] == '\\' ==> k + 1 < |w| && (w[k + 1] == '\\' || Special(w[k + 1]))
  }

  predicate PlainCommand(cmd: string) {
    && cmd != [] && !IsSpace(cmd[0])
    && forall k :: 0 <= k < |cmd| ==> !Special(cmd[k]) && cmd[k] != '\\'
  }

  /** The word the line ends with. */
  function LastWord(cmd: string, params: seq<string>): string {
    if params == [] then cmd else params[|params| - 1]
  }

  predicate PrintableWords(params: seq<string>) {
    forall i :: 0 <= i < |params| ==> params[i] != [] && Escapable(params[i])
  }

  predicate Printable(cmd: string, params: seq<string>) {
    && PlainCommand(cmd)
    && PrintableWords(params)
    && !IsSpace(LastWord(cmd, params)[|LastWord(cmd, params)| - 1])
  }

  // ------------------------------------------------- scanning a printed word

  /** Every backslash that has a successor in the word has a good one. */
  predicate OpenEscapable(w: string) {
    forall k :: 0 <= k < |w| - 1 && w[k] == '\\' ==> w[k + 1] == '\\' || Special(w[k + 1])
  }

  /** The scan of an escaped word lags one backslash behind while the word ends in one. */
  function AfterWord(l: Lexer, w: string): Lexer {
    if w == [] then
      l
    else if w[|w| - 1] == '\\' then
      Lexer(l.inQuotes, true, Some(w[..|w| - 1]), l.words)
    else
      Lexer(l.inQuotes, false, Some(w), l.words)
  }

  lemma Associative(a: string, b: string, c: string)
    ensures a + (b + c) == a + b + c
  {
  }

  lemma ScanOne(l: Lexer, c: char)
    ensures Scan(l, [c]) == Step(l, c)
  {
    assert [c][..0] == [];
  }

  lemma ScanTwo(l: Lexer, c: char, d: char)
    ensures Scan(l, [c, d]) == Step(Step(l, c), d)
  {
    assert [c, d][..1] == [c];
    ScanOne(l, c);
  }

  lemma ScanEscapedChar(l: Lexer, head: string, c: char)
    requires !l.escaped && l.tok.None? && !l.inQuotes
    requires head != [] && head[|head| - 1] == '\\' ==> c == '\\' || Special(c)
    ensures Scan(AfterWord(l, head), EscapeChar(c)) == AfterWord(l, head + [c])
  {
    var before := AfterWord(l, head);
    if head != [] && head[|head| - 1] == '\\' {
      assert head[..|head| - 1] + ['\\'] == head;
    }
    assert (head + [c])[..|head|] == head;
    if Special(c) {
      ScanTwo(before, '\\', c);
    } else {
      ScanOne(before, c);
    }
  }

  lemma OpenPrefix(head: string, c: char)
    requires OpenEscapable(head + [c])
    ensures OpenEscapable(head)
    ensures head != [] && head[|head| - 1] == '\\' ==> c == '\\' || Special(c)
  {
    var w := head + [c];
    assert forall k :: 0 <= k < |head| ==> w[k] == head[k];
    assert w[|head|] == c;
  }

  lemma EscapeSnoc(head: string, c: char)
    ensures Escape(head + [c]) == Escape(head) + EscapeChar(c)
  {
    assert (head + [c])[..|head|] == head;
  }

  lemma {:induction false} ScanEscaped(l: Lexer, w: string)
    requires !l.escaped && l.tok.None? && !l.inQuotes
    requires OpenEscapable(w)
    ensures Scan(l, Escape(w)) == AfterWord(l, w)
  {
    if w != [] {
      var head, c := w[..|w| - 1], w[|w| - 1];
      assert w == head + [c];
      OpenPrefix(head, c);
      ScanEscaped(l, head);
      EscapeSnoc(head, c);
      ScanConcat(l, Escape(head), EscapeChar(c));
      ScanEscapedChar(l, head, c);
    }
  }

  lemma {:induction false} EscapeOfPlain(w: string)
    requires forall k :: 0 <= k < |w| ==> !Special(w[k])
    ensures Escape(w) == w
  {
    if w != [] {
      EscapeOfPlain(w[..|w| - 1]);
    }
  }

  // ------------------------------------------------------ printed, then read

  /** A word without blanks and quotes is scanned as it stands. */
  lemma {:induction false} ScanPlain(p: string)
    requires OpenEscapable(p) && forall k :: 0 <= k < |p| ==> !Special(p[k])
    ensures Scan(START, p) == AfterWord(START, p)
  {
    if p != [] {
      var head, c := p[..|p| - 1], p[|p| - 1];
      assert p == head + [c];
      OpenPrefix(head, c);
      ScanPlain(head);
      ScanConcat(START, head, [c]);
      ScanEscapedChar(START, head, c);
    }
  }

  /** The words cut, and the word still open, once the last printed word has been read. */
  function AfterLine(words: seq<string>): Lexer
    requires words != []
  {
    Lexer(false, false, Some(words[|words| - 1]), words[..|words| - 1])
  }

  /** A blank after a finished word cuts it. */
  lemma ScanSeparator(words: seq<string>)
    requires words != []
    ensures Scan(AfterLine(words), " ") == Lexer(false, false, None, words)
  {
    ScanOne(AfterLine(words), ' ');
    assert words[..|words| - 1] + [words[|words| - 1]] == words;
  }

  lemma ScanNextWord(words: seq<string>, w: string)
    requires words != [] && w != [] && Escapable(w)
    ensures Scan(AfterLine(words), " " + Escape(w)) == AfterLine(words + [w])
  {
    ScanConcat(AfterLine(words), " ", Escape(w));
    ScanSeparator(words);
    ScanEscaped(Lexer(false, false, None, words), w);
    assert (words + [w])[..|words|] == words;
  }

  lemma ScanCommand(cmd: string)
    requires PlainCommand(cmd)
    ensures Scan(START, cmd) == AfterLine([cmd])
  {
    ScanPlain(cmd);
    assert cmd[|cmd| - 1] != '\\';
  }

  lemma ScanLineAndWord(line: string, words: seq<string>, w: string)
    requires words != [] && Scan(START, line) == AfterLine(words)
    requires w != [] && Escapable(w)
    ensures Scan(START, line + " " + Escape(w)) == AfterLine(words + [w])
  {
    Associative(line, " ", Escape(w));
    ScanConcat(START, line, " " + Escape(w));
    ScanNextWord(words, w);
  }

  lemma WithCommand(cmd: string, params: seq<string>)
    requires params != []
    ensures [cmd] + params[..|params| - 1] + [params[|params| - 1]] == [cmd] + params
  {
  }

  lemma {:induction false} ScanCommandLine(cmd: string, params: seq<string>)
    requires PlainCommand(cmd) && PrintableWords(params)
    ensures Scan(START, CommandLine(cmd, params)) == AfterLine([cmd] + params)
  {
    if params == [] {
      ScanCommand(cmd);
      assert [cmd] + params == [cmd];
    } else {
      var head, word := params[..|params| - 1], params[|params| - 1];
      ScanCommandLine(cmd, head);
      ScanLineAndWord(CommandLine(cmd, head), [cmd] + head, word);
      WithCommand(cmd, params);
    }
  }

  lemma {:induction false} CommandLineStart(cmd: string, params: seq<string>)
    requires cmd != []
    ensures cmd <= CommandLine(cmd, params)
  {
    if params != [] {
      CommandLineStart(cmd, params[..|params| - 1]);
    }
  }

  lemma CommandLineEnd(cmd: string, params: seq<string>)
    requires LastWord(cmd, params) != []
    ensures var line := CommandLine(cmd, params);
            line != [] && line[|line| - 1] == LastWord(cmd, params)[|LastWord(cmd, params)| - 1]
  {
  }

  lemma StripNothing(s: string)
    requires s != [] && !IsSpace(s[0]) && !IsSpace(s[|s| - 1])
    ensures Strip(s) == s
  {
  }

  lemma FinishLine(words: seq<string>)
    requires words != []
    ensures Finish(AfterLine(words)) == words
  {
  }

  /** What the shell prints from a printable command, the server reads back. */
  lemma PrintedIsRead(cmd: string, params: seq<string>)
    requires Printable(cmd, params)
    ensures Parse(CommandLine(cmd, params)) == Parsed(cmd, params)
  {
    var line := CommandLine(cmd, params);
    CommandLineStart(cmd, params);
    CommandLineEnd(cmd, params);
    StripNothing(line);
    ScanCommandLine(cmd, params);
    FinishLine([cmd] + params);
  }

  // ------------------------------------------------- read back, so printable

  /** How often a character occurs in a text. */
  function Count(s: string, c: char): nat {
    if s == [] then 0 else Count(s[..|s| - 1], c) + if s[|s| - 1] == c then 1 else 0
  }

  lemma {:induction false} CountConcat(a: string, b: string, c: char)
    ensures Count(a + b, c) == Count(a, c) + Count(b, c)
  {
    if b == [] {
      assert a + b == a;
    } else {
      var n := |b| - 1;
      CountConcat(a, b[..n], c);
      assert (a + b)[..|a + b| - 1] == a + b[..n];
    }
  }

  lemma CountOne(x: char, c: char)
    ensures Count([x], c) == if x == c then 1 else 0
  {
    assert [x][..0] == [];
  }

  /** How often a character occurs in a list of words. */
  function Occurrences(words: seq<string>, c: char): nat {
    if words == [] then 0 else Occurrences(words[..|words| - 1], c) + Count(words[|words| - 1], c)
  }

  /** Occurrences the scan has accounted for: in the words, and as separators between them. */
  function Tally(l: Lexer, c: char): nat {
    Occurrences(l.words, c) + Count(Collected(l), c) + if c == ' ' then |l.words| else 0
  }

  lemma StepTally(l: Lexer, x: char, c: char)
    requires c != '\\'
    ensures Tally(Step(l, x), c) <= Tally(l, c) + if x == c then 1 else 0
  {
    if l.tok.Some? {
      OccurrencesSnoc(l.words, l.tok.value, c);
    }
    CountConcat(Collected(l), [x], c);
    CountOne(x, c);
  }

  /** Scanning may lose occurrences of a character, never invent them. */
  lemma {:induction false} ScanTally(l: Lexer, s: string, c: char)
    requires c != '\\'
    ensures Tally(Scan(l, s), c) <= Tally(l, c) + Count(s, c)
  {
    if s != [] {
      var n := |s| - 1;
      ScanTally(l, s[..n], c);
      StepTally(Scan(l, s[..n]), s[n], c);
    }
  }

  lemma EscapeCharTally(x: char, c: char)
    requires c != '\\'
    ensures Count(EscapeChar(x), c) == if x == c then 1 else 0
  {
    CountOne(x, c);
    if Special(x) {
      CountConcat(['\\'], [x], c);
      CountOne('\\', c);
      assert ['\\'] + [x] == ['\\', x];
    }
  }

  lemma {:induction false} EscapeTally(w: string, c: char)
    requires c != '\\'
    ensures Count(Escape(w), c) == Count(w, c)
  {
    if w != [] {
      var n := |w| - 1;
      EscapeTally(w[..n], c);
      CountConcat(Escape(w[..n]), EscapeChar(w[n]), c);
      EscapeCharTally(w[n], c);
    }
  }

  lemma OccurrencesSnoc(words: seq<string>, w: string, c: char)
    ensures Occurrences(words + [w], c) == Occurrences(words, c) + Count(w, c)
  {
    assert (words + [w])[..|words|] == words;
  }

  lemma ParamTally(line: string, words: seq<string>, w: string, c: char)
    requires c != '\\'
    ensures Count(line + " " + Escape(w), c) + Occurrences(words, c)
         == Count(line, c) + Occurrences(words + [w], c) + if c == ' ' then 1 else 0
  {
    CountConcat(line + " ", Escape(w), c);
    CountConcat(line, " ", c);
    CountOne(' ', c);
    EscapeTally(w, c);
    OccurrencesSnoc(words, w, c);
  }

  lemma {:induction false} LineTally(cmd: string, params: seq<string>, c: char)
    requires c != '\\'
    ensures Count(CommandLine(cmd, params), c)
         == Occurrences([cmd] + params, c) + if c == ' ' then |params| else 0
  {
    if params == [] {
      OccurrencesSnoc([], cmd, c);
      assert [cmd] + params == [] + [cmd];
    } else {
      var head, word := params[..|params| - 1], params[|params| - 1];
      LineTally(cmd, head, c);
      ParamTally(CommandLine(cmd, head), [cmd] + head, word, c);
      WithCommand(cmd, params);
    }
  }

  /** A scan that ends with exactly the printed words has lost nothing. */
  lemma AllAccountedFor(l: Lexer, cmd: string, params: seq<string>, c: char)
    requires c != '\\' && l.tok.Some? && Finish(l) == [cmd] + params
    ensures Tally(l, c) == Count(CommandLine(cmd, params), c)
  {
    LineTally(cmd, params, c);
    OccurrencesSnoc(l.words, l.tok.value, c);
    assert |l.words| == |params|;
  }

  lemma {:induction false} CountIn(s: string, i: nat)
    requires i < |s|
    ensures Count(s, s[i]) > 0
  {
    if i < |s| - 1 {
      CountIn(s[..|s| - 1], i);
    }
  }

  lemma CountMiddle(pre: string, mid: string, post: string, c: char)
    ensures Count(pre + mid + post, c) == Count(pre, c) + Count(mid, c) + Count(post, c)
  {
    CountConcat(pre + mid, post, c);
    CountConcat(pre, mid, c);
  }

  /** Stripping that changes a line loses some character that is not a backslash. */
  lemma StrippingLoses(line: string) returns (c: char)
    requires Strip(line) != line
    ensures c != '\\' && Count(Strip(line), c) < Count(line, c)
  {
    var lo, hi := StripKeepsTheMiddle(line);
    var pre, mid, post := line[..lo], line[lo..hi], line[hi..];
    assert line == pre + mid + post;
    if lo > 0 {
      c := pre[0];
      CountIn(pre, 0);
    } else {
      c := post[0];
      CountIn(post, 0);
    }
    CountMiddle(pre, mid, post, c);
  }

  lemma {:induction false} CommandLineSplit(cmd: string, params: seq<string>, k: nat) returns (rest: string)
    requires k <= |params|
    ensures CommandLine(cmd, params) == CommandLine(cmd, params[..k]) + rest
    ensures if k == |params| then rest == [] else rest != [] && rest[0] == ' '
    decreases |params|
  {
    if k == |params| {
      assert params[..k] == params;
      rest := [];
    } else {
      var head := params[..|params| - 1];
      assert head[..k] == params[..k];
      rest := CommandLineSplit(cmd, head, k);
      rest := rest + " " + Escape(params[|params| - 1]);
    }
  }

  /** A backslash that the printer did not add and that protects nothing is lost. */
  lemma StrayBackslash(l: Lexer, p: string, t: string)
    requires l == Lexer(false, true, Some(p), l.words)
    requires t == [] || t[0] != '\\'
    ensures var w := Finish(Scan(l, t)); |l.words| < |w| && !(p + ['\\'] <= w[|l.words|])
  {
    if t != [] {
      assert t == [t[0]] + t[1..];
      ScanConcat(l, [t[0]], t[1..]);
      ScanOne(l, t[0]);
      var next := Step(l, t[0]);
      assert next.tok == Some(p + [t[0]]);
      ScanPersists(next, t[1..]);
      assert (p + [t[0]])[|p|] != (p + ['\\'])[|p|];
    }
  }

  lemma ScanThrough(l: Lexer, p: string, c: char, t: string)
    ensures Scan(l, p + [c] + t) == Scan(Step(Scan(l, p), c), t)
  {
    ScanConcat(l, p, [c]);
    ScanOne(Scan(l, p), c);
    ScanConcat(l, p + [c], t);
  }

  lemma EscapeConcatNext(a: string, head: string, c: char)
    requires Escape(a + head) == Escape(a) + Escape(head)
    ensures Escape(a + (head + [c])) == Escape(a) + Escape(head + [c])
  {
    EscapeSnoc(a + head, c);
    EscapeSnoc(head, c);
    Associative(a, head, [c]);
    Associative(Escape(a), Escape(head), EscapeChar(c));
  }

  lemma {:induction false} EscapeConcat(a: string, b: string)
    ensures Escape(a + b) == Escape(a) + Escape(b)
  {
    if b == [] {
      assert a + b == a;
    } else {
      EscapeConcat(a, b[..|b| - 1]);
      EscapeConcatNext(a, b[..|b| - 1], b[|b| - 1]);
      assert b == b[..|b| - 1] + [b[|b| - 1]];
    }
  }

  /** A double quote that the scan drops is missing from the words in the end. */
  lemma DroppedQuote(p: string, t: string)
    requires OpenEscapable(p) && (p != [] ==> p[|p| - 1] != '\\')
    requires forall k :: 0 <= k < |p| ==> !Special(p[k])
    ensures Tally(Scan(START, p + ['\"'] + t), '\"') < Count(p + ['\"'] + t, '\"')
  {
    ScanPlain(p);
    ScanThrough(START, p, '\"', t);
    ScanTally(START, p, '\"');
    ScanTally(Step(AfterWord(START, p), '\"'), t, '\"');
    CountMiddle(p, ['\"'], t, '\"');
    CountOne('\"', '\"');
  }

  lemma UnprotectedBlank(p: string, t: string)
    requires p != [] && OpenEscapable(p) && p[|p| - 1] != '\\'
    requires forall k :: 0 <= k < |p| ==> !Special(p[k])
    ensures var w := Finish(Scan(START, p + [' '] + t)); w != [] && w[0] == p
  {
    ScanPlain(p);
    ScanThrough(START, p, ' ', t);
    var next := Step(AfterWord(START, p), ' ');
    assert next == Lexer(false, false, None, [p]);
    ScanPersists(next, t);
  }

  lemma StrayInCommand(p: string, t: string)
    requires OpenEscapable(p + ['\\']) && (t == [] || t[0] != '\\')
    requires forall k :: 0 <= k < |p| ==> !Special(p[k])
    ensures var w := Finish(Scan(START, p + ['\\'] + t)); w != [] && !(p + ['\\'] <= w[0])
  {
    var q := p + ['\\'];
    ScanPlain(q);
    assert q[..|p|] == p;
    ScanConcat(START, q, t);
    StrayBackslash(AfterWord(START, q), p, t);
  }

  /** No blank, no quote, and backslashes only in front of backslashes. */
  predicate PlainAt(cmd: string, k: int)
    requires 0 <= k < |cmd|
  {
    !Special(cmd[k]) && (cmd[k] == '\\' ==> k + 1 < |cmd| && cmd[k + 1] == '\\')
  }

  /** A command whose first j characters are plain reads like its first j characters. */
  lemma PlainPrefix(cmd: string, j: nat)
    requires j < |cmd| && forall k :: 0 <= k < j ==> PlainAt(cmd, k)
    ensures OpenEscapable(cmd[..j + 1]) || Special(cmd[j])
    ensures OpenEscapable(cmd[..j])
    ensures forall k :: 0 <= k < j ==> !Special(cmd[..j][k])
    ensures j > 0 && cmd[j - 1] == '\\' ==> cmd[j] == '\\'
  {
    forall k | 0 <= k < j ensures !Special(cmd[k]) && (cmd[k] == '\\' ==> cmd[k + 1] == '\\') {
      assert PlainAt(cmd, k);
    }
  }

  lemma SplitAt(w: string, j: nat)
    requires j < |w|
    ensures w == w[..j] + [w[j]] + w[j + 1..] && w[..j + 1] == w[..j] + [w[j]]
  {
  }

  lemma SplitLine(cmd: string, rest: string, j: nat)
    requires j < |cmd|
    ensures cmd + rest == cmd[..j] + [cmd[j]] + (cmd[j + 1..] + rest)
  {
    SplitAt(cmd, j);
  }

  lemma ReadBlankAt(cmd: string, rest: string, j: nat)
    requires 0 < j < |cmd| && forall k :: 0 <= k < j ==> PlainAt(cmd, k)
    requires cmd[j] == ' '
    ensures var w := Finish(Scan(START, cmd + rest)); w != [] && w[0] == cmd[..j]
  {
    PlainPrefix(cmd, j);
    SplitLine(cmd, rest, j);
    UnprotectedBlank(cmd[..j], cmd[j + 1..] + rest);
  }

  lemma ReadQuoteAt(cmd: string, rest: string, j: nat)
    requires j < |cmd| && forall k :: 0 <= k < j ==> PlainAt(cmd, k)
    requires cmd[j] == '\"'
    ensures Tally(Scan(START, cmd + rest), '\"') < Count(cmd + rest, '\"')
  {
    PlainPrefix(cmd, j);
    SplitLine(cmd, rest, j);
    DroppedQuote(cmd[..j], cmd[j + 1..] + rest);
  }

  lemma ReadBackslashAt(cmd: string, rest: string, j: nat)
    requires j < |cmd| && forall k :: 0 <= k < j ==> PlainAt(cmd, k)
    requires rest == [] || rest[0] == ' '
    requires cmd[j] == '\\' && !(j + 1 < |cmd| && cmd[j + 1] == '\\')
    ensures var w := Finish(Scan(START, cmd + rest)); w != [] && !(cmd[..j + 1] <= w[0])
  {
    PlainPrefix(cmd, j);
    SplitLine(cmd, rest, j);
    SplitAt(cmd, j);
    StrayInCommand(cmd[..j], cmd[j + 1..] + rest);
  }

  /** The characters of a command that reads as itself are plain, given that those before are. */
  lemma ReadCommandAt(cmd: string, rest: string, j: nat)
    requires j < |cmd| && !IsSpace(cmd[0]) && (rest == [] || rest[0] == ' ')
    requires forall k :: 0 <= k < j ==> PlainAt(cmd, k)
    requires var w := Finish(Scan(START, cmd + rest)); w != [] && w[0] == cmd
    requires Tally(Scan(START, cmd + rest), '\"') == Count(cmd + rest, '\"')
    ensures PlainAt(cmd, j)
  {
    if cmd[j] == ' ' {
      ReadBlankAt(cmd, rest, j);
    } else if cmd[j] == '\"' {
      ReadQuoteAt(cmd, rest, j);
    } else if cmd[j] == '\\' && !PlainAt(cmd, j) {
      ReadBackslashAt(cmd, rest, j);
    }
  }

  lemma {:induction false} BackslashRunEnds(cmd: string, k: nat)
    requires k < |cmd| && forall i :: 0 <= i < |cmd| ==> PlainAt(cmd, i)
    ensures cmd[k] != '\\'
    decreases |cmd| - k
  {
    assert PlainAt(cmd, k);
    if k + 1 < |cmd| {
      BackslashRunEnds(cmd, k + 1);
    }
  }

  lemma ReadCommandIsPlain(cmd: string, rest: string)
    requires cmd != [] && !IsSpace(cmd[0]) && (rest == [] || rest[0] == ' ')
    requires var w := Finish(Scan(START, cmd + rest)); w != [] && w[0] == cmd
    requires Tally(Scan(START, cmd + rest), '\"') == Count(cmd + rest, '\"')
    ensures PlainCommand(cmd)
  {
    var j := 0;
    while j < |cmd|
      invariant j <= |cmd| && forall k :: 0 <= k < j ==> PlainAt(cmd, k)
    {
      ReadCommandAt(cmd, rest, j);
      j := j + 1;
    }
    forall k | 0 <= k < |cmd| ensures !Special(cmd[k]) && cmd[k] != '\\' {
      assert PlainAt(cmd, k);
      BackslashRunEnds(cmd, k);
    }
  }

  /** The backslash at k, if it is one, is followed by a character that it protects. */
  predicate GoodAt(w: string, k: int)
    requires 0 <= k < |w|
  {
    w[k] == '\\' ==> k + 1 < |w| && (w[k + 1] == '\\' || Special(w[k + 1]))
  }

  /** What the printer writes from an unprotected position on does not start with a backslash. */
  lemma EscapedTail(tail: string, rest: string)
    requires tail != [] ==> tail[0] != '\\' && !Special(tail[0])
    requires rest == [] || rest[0] == ' '
    ensures Escape(tail) + rest == [] || (Escape(tail) + rest)[0] != '\\'
  {
    if tail != [] {
      assert tail == [tail[0]] + tail[1..];
      EscapeConcat([tail[0]], tail[1..]);
      EscapeOfPlain([tail[0]]);
    }
  }

  lemma ScanEscapedThen(l: Lexer, q: string, tail: string, rest: string)
    requires l == Lexer(false, false, None, l.words) && OpenEscapable(q)
    ensures Scan(l, Escape(q + tail) + rest) == Scan(AfterWord(l, q), Escape(tail) + rest)
  {
    EscapeConcat(q, tail);
    Associative(Escape(q), Escape(tail), rest);
    ScanConcat(l, Escape(q), Escape(tail) + rest);
    ScanEscaped(l, q);
  }

  lemma StrayInParam(l: Lexer, p: string, tail: string, rest: string)
    requires l == Lexer(false, false, None, l.words) && OpenEscapable(p + ['\\'])
    requires tail != [] ==> tail[0] != '\\' && !Special(tail[0])
    requires rest == [] || rest[0] == ' '
    ensures var w := Finish(Scan(l, Escape(p + ['\\'] + tail) + rest));
            |l.words| < |w| && !(p + ['\\'] <= w[|l.words|])
  {
    ScanEscapedThen(l, p + ['\\'], tail, rest);
    EscapedTail(tail, rest);
    assert (p + ['\\'])[..|p|] == p;
    StrayBackslash(Lexer(false, true, Some(p), l.words), p, Escape(tail) + rest);
  }

  lemma GoodPrefix(w: string, j: nat)
    requires j < |w| && forall k :: 0 <= k < j ==> GoodAt(w, k)
    ensures OpenEscapable(w[..j + 1])
  {
    forall k | 0 <= k < j && w[k] == '\\' ensures w[k + 1] == '\\' || Special(w[k + 1]) {
      assert GoodAt(w, k);
    }
  }

  lemma ReadWordAt(words: seq<string>, w: string, rest: string, j: nat)
    requires j < |w| && (rest == [] || rest[0] == ' ')
    requires forall k :: 0 <= k < j ==> GoodAt(w, k)
    requires var r := Finish(Scan(Lexer(false, false, None, words), Escape(w) + rest));
             |words| < |r| && r[|words|] == w
    ensures GoodAt(w, j)
  {
    if w[j] == '\\' && !GoodAt(w, j) {
      SplitAt(w, j);
      GoodPrefix(w, j);
      StrayInParam(Lexer(false, false, None, words), w[..j], w[j + 1..], rest);
    }
  }

  /** An empty parameter is not read as an empty word: the next blank starts a word instead. */
  lemma EmptyIsLost(words: seq<string>, rest: string)
    requires rest == [] || rest[0] == ' '
    ensures var w := Finish(Scan(Lexer(false, false, None, words), rest)); |words| < |w| ==> w[|words|] != []
  {
    if rest != [] {
      var l := Lexer(false, false, None, words);
      assert rest == [rest[0]] + rest[1..];
      ScanConcat(l, [rest[0]], rest[1..]);
      ScanOne(l, ' ');
      ScanPersists(Step(l, ' '), rest[1..]);
    }
  }

  lemma {:induction false} ReadWordUpTo(words: seq<string>, w: string, rest: string, j: nat)
    requires j <= |w| && (rest == [] || rest[0] == ' ')
    requires var r := Finish(Scan(Lexer(false, false, None, words), Escape(w) + rest));
             |words| < |r| && r[|words|] == w
    ensures forall k :: 0 <= k < j ==> GoodAt(w, k)
  {
    if j > 0 {
      ReadWordUpTo(words, w, rest, j - 1);
      ReadWordAt(words, w, rest, j - 1);
    }
  }

  lemma GoodIsEscapable(w: string)
    requires forall k :: 0 <= k < |w| ==> GoodAt(w, k)
    ensures Escapable(w)
  {
    forall k | 0 <= k < |w| && w[k] == '\\' ensures k + 1 < |w| && (w[k + 1] == '\\' || Special(w[k + 1])) {
      assert GoodAt(w, k);
    }
  }

  lemma ReadWordIsPrintable(words: seq<string>, w: string, rest: string)
    requires rest == [] || rest[0] == ' '
    requires var r := Finish(Scan(Lexer(false, false, None, words), Escape(w) + rest));
             |words| < |r| && r[|words|] == w
    ensures w != [] && Escapable(w)
  {
    if w == [] {
      assert Escape(w) + rest == rest;
      EmptyIsLost(words, rest);
    }
    ReadWordUpTo(words, w, rest, |w|);
    GoodIsEscapable(w);
  }

  /** Reading the rest of a line after its first k parameters were read as they should. */
  lemma ScanFromParam(cmd: string, done: seq<string>, w: string, rest: string)
    requires PlainCommand(cmd) && PrintableWords(done)
    ensures Scan(START, CommandLine(cmd, done + [w]) + rest)
         == Scan(Lexer(false, false, None, [cmd] + done), Escape(w) + rest)
  {
    var line, t := CommandLine(cmd, done), Escape(w) + rest;
    assert (done + [w])[..|done|] == done;
    assert CommandLine(cmd, done + [w]) + rest == line + " " + t;
    ScanCommandLine(cmd, done);
    ScanConcat(START, line, " ");
    ScanSeparator([cmd] + done);
    ScanConcat(START, line + " ", t);
  }

  lemma {:induction false} ReadParamsArePrintable(cmd: string, params: seq<string>, k: nat)
    requires k <= |params| && PlainCommand(cmd)
    requires Finish(Scan(START, CommandLine(cmd, params))) == [cmd] + params
    ensures PrintableWords(params[..k])
  {
    if k > 0 {
      ReadParamsArePrintable(cmd, params, k - 1);
      var done, w := params[..k - 1], params[k - 1];
      assert params[..k] == done + [w];
      var rest := CommandLineSplit(cmd, params, k);
      ScanFromParam(cmd, done, w, rest);
      ReadWordIsPrintable([cmd] + done, w, rest);
    }
  }

  /** The scan behind a successful reading: the words it has cut, and the one left open. */
  lemma ReadScan(cmd: string, params: seq<string>)
    requires Parse(CommandLine(cmd, params)) == Parsed(cmd, params)
    ensures var s := Strip(CommandLine(cmd, params));
            s != [] && Scan(START, s).tok.Some? && Finish(Scan(START, s)) == [cmd] + params
  {
    var s := Strip(CommandLine(cmd, params));
    assert Scan(START, s).tok.Some?;
    assert Finish(Scan(START, s)) == [cmd] + params;
  }

  lemma ReadStripsNothing(cmd: string, params: seq<string>)
    requires Parse(CommandLine(cmd, params)) == Parsed(cmd, params)
    ensures Strip(CommandLine(cmd, params)) == CommandLine(cmd, params)
  {
    var line := CommandLine(cmd, params);
    ReadScan(cmd, params);
    if Strip(line) != line {
      var c := StrippingLoses(line);
      ScanTally(START, Strip(line), c);
      AllAccountedFor(Scan(START, Strip(line)), cmd, params, c);
    }
  }

  lemma ReadLosesNothing(cmd: string, params: seq<string>)
    requires Parse(CommandLine(cmd, params)) == Parsed(cmd, params)
    ensures var line := CommandLine(cmd, params);
            && line != [] && Strip(line) == line && Finish(Scan(START, line)) == [cmd] + params
            && Tally(Scan(START, line), '\"') == Count(line, '\"')
  {
    ReadScan(cmd, params);
    ReadStripsNothing(cmd, params);
    AllAccountedFor(Scan(START, CommandLine(cmd, params)), cmd, params, '\"');
  }

  lemma ReadCommand(cmd: string, params: seq<string>)
    requires Parse(CommandLine(cmd, params)) == Parsed(cmd, params)
    ensures PlainCommand(cmd)
  {
    ReadLosesNothing(cmd, params);
    var rest := CommandLineSplit(cmd, params, 0);
    assert params[..0] == [];
    ReadCommandIsPlain(cmd, rest);
  }

  lemma ReadWords(cmd: string, params: seq<string>)
    requires Parse(CommandLine(cmd, params)) == Parsed(cmd, params) && PlainCommand(cmd)
    ensures PrintableWords(params)
  {
    ReadLosesNothing(cmd, params);
    assert params[..|params|] == params;
    ReadParamsArePrintable(cmd, params, |params|);
  }

  lemma ReadEnd(cmd: string, params: seq<string>)
    requires Strip(CommandLine(cmd, params)) == CommandLine(cmd, params)
    requires LastWord(cmd, params) != []
    ensures !IsSpace(LastWord(cmd, params)[|LastWord(cmd, params)| - 1])
  {
    CommandLineEnd(cmd, params);
  }

  /** What the server reads back unchanged was printable. */
  lemma ReadIsPrintable(cmd: string, params: seq<string>)
    requires Parse(CommandLine(cmd, params)) == Parsed(cmd, params)
    ensures Printable(cmd, params)
  {
    ReadCommand(cmd, params);
    ReadWords(cmd, params);
    ReadStripsNothing(cmd, params);
    ReadEnd(cmd, params);
  }

  /** The exact domain on which printing and reading undo each other. */
  lemma {:induction false} RoundTrip(cmd: string, params: seq<string>)
    ensures Parse(CommandLine(cmd, params)) == Parsed(cmd, params) <==> Printable(cmd, params)
  {
    if Printable(cmd, params) {
      PrintedIsRead(cmd, params);
    }
    if Parse(CommandLine(cmd, params)) == Parsed(cmd, params) {
      ReadIsPrintable(cmd, params);
    }
  }

  /** Outside the domain words get lost: an empty parameter, one with a stray backslash, and one
      that ends in a blank at the end of the line. */
  lemma SomeWordsAreLost()
    ensures Parse(CommandLine("get", [""])) != Parsed("get", [""])
    ensures Parse(CommandLine("get", ["a\\b"])) != Parsed("get", ["a\\b"])
    ensures Parse(CommandLine("get", ["a "])) != Parsed("get", ["a "])
  {
    var stray := ["a\\b"];
    RoundTrip("get", [""]);
    RoundTrip("get", stray);
    RoundTrip("get", ["a "]);
    assert stray[0][1] == '\\' && stray[0][2] == 'b';
  }
}
