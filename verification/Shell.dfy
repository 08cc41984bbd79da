/** How src/shell.c prints a command and its parameters as one command line. */
module Shell {

  predicate Special(c: char) {
    c == ' ' || c == '\"'
  }

  function EscapeChar(c: char): string {
    if Special(c) then ['\\', c] else [c]
  }

  function Escape(param: string): string {
    if param == [] then [] else Escape(param[..|param| - 1]) + EscapeChar(param[|param| - 1])
  }

  function CommandLine(cmd: string, params: seq<string>): string {
    if params == [] then
      cmd
    else
      CommandLine(cmd, params[..|params| - 1]) + " " + Escape(params[|params| - 1])
  }

  /** How many of the first n characters are blanks or quotes. */
  function SpecialCount(param: string, n: nat): nat
    requires n <= |param|
  {
    if n == 0 then 0 else SpecialCount(param, n - 1) + if param[n - 1] == ' ' || param[n - 1] == '\"' then 1 else 0
  }

  /** Where each character of a parameter stands in the escaped text: moved on by the blanks and quotes
      before it, and behind a backslash of its own if it is one. */
  lemma {:induction false} EscapePlaces(param: string, i: nat)
    requires i < |param|
    ensures |Escape(param)| == |param| + SpecialCount(param, |param|)
    ensures i + SpecialCount(param, i + 1) < |Escape(param)|
    ensures Escape(param)[i + SpecialCount(param, i + 1)] == param[i]
    ensures param[i] == ' ' || param[i] == '\"' ==> Escape(param)[i + SpecialCount(param, i)] == '\\'
  {
    var n := |param| - 1;
    EscapeLength(param);
    EscapeLength(param[..n]);
    SpecialPrefix(param, n, n);
    SpecialPrefix(param, n, i);
    if i < n {
      SpecialPrefix(param, n, i + 1);
      EscapePlaces(param[..n], i);
    }
  }

  lemma {:induction false} EscapeLength(param: string)
    ensures |Escape(param)| == |param| + SpecialCount(param, |param|)
  {
    if param != [] {
      EscapeLength(param[..|param| - 1]);
      SpecialPrefix(param, |param| - 1, |param| - 1);
    }
  }

  lemma {:induction false} SpecialPrefix(param: string, m: nat, n: nat)
    requires n <= m <= |param|
    ensures SpecialCount(param[..m], n) == SpecialCount(param, n)
  {
    if n > 0 {
      SpecialPrefix(param, m, n - 1);
    }
  }

  /** A command line is the command, and then a blank and the escaped text for every parameter. */
  lemma CommandLineMeans(cmd: string, params: seq<string>, param: string)
    ensures CommandLine(cmd, []) == cmd
    ensures CommandLine(cmd, params + [param]) == CommandLine(cmd, params) + " " + Escape(param)
  {
    assert (params + [param])[..|params|] == params;
  }

  /** `_escape_param`: the buffer and its write index, the reader stopping at the NUL. */
  method EscapeParam(param: string) returns (ret: string, len: nat)
    ensures ret == Escape(param) && len == |ret|
  {
    ret := [];
    var s := 0;
    while s < |param|
      invariant s <= |param| && ret == Escape(param[..s])
    {
      var c := param[s];
      s := s + 1;
      assert param[..s][..s - 1] == param[..s - 1];
      if c == ' ' || c == '\"' {
        ret := ret + ['\\'];
      }
      ret := ret + [c];
    }
    assert param[..s] == param;
    len := |ret|;
  }

  /** The assembly loop of `main`: every parameter is followed by a blank, and the last blank
      is overwritten by the NUL. */
  method AssembleCommandLine(argv: seq<string>) returns (cmdline: string)
    requires argv != []
    ensures cmdline == CommandLine(argv[0], argv[1..])
  {
    var buf := argv[0] + " ";
    for i := 1 to |argv|
      invariant buf == CommandLine(argv[0], argv[1..i]) + " "
    {
      var param, plen := EscapeParam(argv[i]);
      assert argv[1..i + 1][..i - 1] == argv[1..i];
      buf := buf + param[..plen];
      buf := buf + " ";
    }
    assert argv[1..|argv|] == argv[1..];
    cmdline := buf[..|buf| - 1];
  }
}
