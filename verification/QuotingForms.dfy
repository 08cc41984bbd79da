/** A parameter may be typed with backslashes or between double quotes; the server reads the
    same list for every mixture of the two. */
module QuotingForms {
  import opened Options
  import opened Util
  import opened Shell
  import opened RoundTrip

  datatype Form = Escaped | Quoted

  function Written(w: string, f: Form): string {
    match f
    case Escaped => Escape(w)
    case Quoted => "\"" + w + "\""
  }

  predicate WellWritten(w: string, f: Form) {
    match f
    case Escaped => w != [] && Escapable(w)
    case Quoted => forall k :: 0 <= k < |w| ==> w[k] != '\"' && w[k] != '\\'
  }

  datatype Param = Param(word: string, form: Form)

  function TypedLine(cmd: string, params: seq<Param>): string {
    if params == [] then
      cmd
    else
      var last := params[|params| - 1];
      TypedLine(cmd, params[..|params| - 1]) + " " + Written(last.word, last.form)
  }

  function Values(params: seq<Param>): seq<string> {
    if params == [] then [] else Values(params[..|params| - 1]) + [params[|params| - 1].word]
  }

  predicate AllWellWritten(params: seq<Param>) {
    forall i :: 0 <= i < |params| ==> WellWritten(params[i].word, params[i].form)
  }

  /** The line does not end in a blank that stripping would take. */
  predicate EndsInWord(cmd: string, params: seq<Param>) {
    var last := if params == [] then Param(cmd, Escaped) else params[|params| - 1];
    last.form == Quoted || (last.word != [] && !IsSpace(last.word[|last.word| - 1]))
  }

  lemma {:induction false} ScanInsideQuotes(l: Lexer, w: string)
    requires l == Lexer(false, false, None, l.words) && WellWritten(w, Quoted)
    ensures Scan(l, "\"" + w) == Lexer(true, false, Some(w), l.words)
  {
    if w == [] {
      assert "\"" + w == "\"";
      ScanOne(l, '\"');
    } else {
      var head, c := w[..|w| - 1], w[|w| - 1];
      ScanInsideQuotes(l, head);
      assert "\"" + w == "\"" + head + [c] && head + [c] == w;
      ScanConcat(l, "\"" + head, [c]);
      ScanOne(Lexer(true, false, Some(head), l.words), c);
    }
  }

  lemma ScanWritten(words: seq<string>, w: string, f: Form)
    requires WellWritten(w, f)
    ensures Scan(Lexer(false, false, None, words), Written(w, f)) == Lexer(false, false, Some(w), words)
  {
    var l := Lexer(false, false, None, words);
    match f {
      case Escaped =>
        ScanEscaped(l, w);
      case Quoted =>
        ScanInsideQuotes(l, w);
        ScanConcat(l, "\"" + w, "\"");
        ScanOne(Lexer(true, false, Some(w), words), '\"');
    }
  }

  lemma ScanTypedWord(line: string, words: seq<string>, w: string, f: Form)
    requires words != [] && Scan(START, line) == AfterLine(words) && WellWritten(w, f)
    ensures Scan(START, line + " " + Written(w, f)) == AfterLine(words + [w])
  {
    ScanConcat(START, line + " ", Written(w, f));
    ScanConcat(START, line, " ");
    ScanSeparator(words);
    ScanWritten(words, w, f);
    assert (words + [w])[..|words|] == words;
  }

  /** After every typed parameter the scan stands outside quotes, with that parameter as the open
      word and all the earlier ones cut. */
  lemma {:induction false} ScanTypedLine(cmd: string, params: seq<Param>)
    requires PlainCommand(cmd) && AllWellWritten(params)
    ensures Scan(START, TypedLine(cmd, params)) == AfterLine([cmd] + Values(params))
    ensures !Scan(START, TypedLine(cmd, params)).inQuotes
  {
    if params == [] {
      ScanCommand(cmd);
      assert [cmd] + Values(params) == [cmd];
    } else {
      var head, last := params[..|params| - 1], params[|params| - 1];
      ScanTypedLine(cmd, head);
      ScanTypedWord(TypedLine(cmd, head), [cmd] + Values(head), last.word, last.form);
      assert [cmd] + Values(head) + [last.word] == [cmd] + Values(params);
    }
  }

  lemma {:induction false} TypedLineStart(cmd: string, params: seq<Param>)
    ensures cmd <= TypedLine(cmd, params)
  {
    if params != [] {
      TypedLineStart(cmd, params[..|params| - 1]);
    }
  }

  lemma EscapeEnd(w: string)
    requires w != []
    ensures Escape(w) != [] && Escape(w)[|Escape(w)| - 1] == w[|w| - 1]
  {
  }

  lemma TypedLineEnd(cmd: string, params: seq<Param>)
    requires PlainCommand(cmd) && EndsInWord(cmd, params)
    ensures var line := TypedLine(cmd, params); line != [] && !IsSpace(line[|line| - 1])
  {
    if params != [] {
      var last := params[|params| - 1];
      if last.form == Escaped {
        EscapeEnd(last.word);
      }
    }
  }

  /** Every mixture of the two forms is read as the values it was typed for. */
  lemma TypedIsRead(cmd: string, params: seq<Param>)
    requires PlainCommand(cmd) && AllWellWritten(params) && EndsInWord(cmd, params)
    ensures Parse(TypedLine(cmd, params)) == Parsed(cmd, Values(params))
  {
    TypedLineStart(cmd, params);
    TypedLineEnd(cmd, params);
    StripNothing(TypedLine(cmd, params));
    ScanTypedLine(cmd, params);
    FinishLine([cmd] + Values(params));
  }

  lemma FormsAgree(cmd: string, a: seq<Param>, b: seq<Param>)
    requires PlainCommand(cmd) && Values(a) == Values(b)
    requires AllWellWritten(a) && EndsInWord(cmd, a)
    requires AllWellWritten(b) && EndsInWord(cmd, b)
    ensures Parse(TypedLine(cmd, a)) == Parse(TypedLine(cmd, b))
  {
    TypedIsRead(cmd, a);
    TypedIsRead(cmd, b);
  }
}
