/** The string helpers of src/util.c: stripping blanks and cutting a command line into words. */
module Util {
  import opened Options

  /** `isspace` in the C locale: the blank and the codes 9 to 13. */
  predicate IsSpace(c: char) {
    c == ' ' || 9 <= c as int <= 13
  }

  // ---------------------------------------------------------------- strstrip

  function TrimEnd(s: string): (r: string)
    ensures r <= s
    ensures r != [] ==> !IsSpace(r[|r| - 1])
  {
    if s != [] && IsSpace(s[|s| - 1]) then TrimEnd(s[..|s| - 1]) else s
  }

  function TrimStart(s: string): (r: string)
    ensures |r| <= |s|
    ensures r != [] ==> r[|r| - 1] == s[|s| - 1] && !IsSpace(r[0])
  {
    if s != [] && IsSpace(s[0]) then TrimStart(s[1..]) else s
  }

  function Strip(s: string): (r: string)
    ensures r != [] ==> !IsSpace(r[0]) && !IsSpace(r[|r| - 1])
  {
    TrimStart(TrimEnd(s))
  }

  lemma {:induction false} TrimEndDropsBlanks(s: string)
    ensures forall i :: |TrimEnd(s)| <= i < |s| ==> IsSpace(s[i])
  {
    if s != [] && IsSpace(s[|s| - 1]) {
      TrimEndDropsBlanks(s[..|s| - 1]);
      forall i | |TrimEnd(s)| <= i < |s| ensures IsSpace(s[i]) {
        if i < |s| - 1 { assert s[..|s| - 1][i] == s[i]; }
      }
    }
  }

  lemma {:induction false} TrimStartDropsBlanks(s: string) returns (lo: nat)
    ensures lo <= |s| && TrimStart(s) == s[lo..]
    ensures forall i :: 0 <= i < lo ==> IsSpace(s[i])
  {
    if s != [] && IsSpace(s[0]) {
      lo := TrimStartDropsBlanks(s[1..]);
      forall i | 0 <= i < lo + 1 ensures IsSpace(s[i]) {
        if i > 0 { assert s[1..][i - 1] == s[i]; }
      }
      lo := lo + 1;
    } else {
      lo := 0;
    }
  }

  /** What is stripped is blank and what is kept is one stretch of the line. */
  lemma StripKeepsTheMiddle(s: string) returns (lo: nat, hi: nat)
    ensures lo <= hi <= |s| && Strip(s) == s[lo..hi]
    ensures forall i :: 0 <= i < lo || hi <= i < |s| ==> IsSpace(s[i])
  {
    TrimEndDropsBlanks(s);
    hi := |TrimEnd(s)|;
    lo := TrimStartDropsBlanks(TrimEnd(s));
    assert TrimEnd(s) == s[..hi];
  }

  /** The backward loop moves the length, the forward loop moves the pointer and the length.
      Reading the character before the string counts as "not blank", so a blank line ends
      the first loop with length 0 and the second with a negative length. */
  method StrStrip(text: string) returns (r: string)
    ensures r == Strip(text)
  {
    var len: int := |text|;
    assert text[..len] == text;
    while len > 0 && IsSpace(text[len - 1])
      invariant 0 <= len <= |text|
      invariant TrimEnd(text[..len]) == TrimEnd(text)
    {
      assert text[..len][..len - 1] == text[..len - 1];
      len := len - 1;
    }
    ghost var end := len;
    assert TrimEnd(text) == text[..end];
    var s := 0;
    while s < |text| && IsSpace(text[s])
      invariant 0 <= s <= |text| && len == end - s
      invariant s <= end ==> TrimStart(text[s..end]) == Strip(text)
      invariant s >= end ==> Strip(text) == []
    {
      if s < end {
        assert text[s..end][1..] == text[s + 1..end];
      }
      s, len := s + 1, len - 1;
    }
    // strndup (s, len): a negative length is a huge size_t and copies up to the NUL.
    if len < 0 || s + len > |text| {
      TrimEndDropsBlanks(text);
      assert s == |text|;
      r := text[s..];
    } else {
      r := text[s..s + len];
    }
  }

  // ------------------------------------------------------------ the tokenizer

  /** The state of the scan: whether a quote is open, whether the character just read was a
      backslash, the word being collected (NULL between words) and the words already cut. */
  datatype Lexer = Lexer(inQuotes: bool, escaped: bool, tok: Option<string>, words: seq<string>)

  const START := Lexer(false, false, None, [])

  function Collected(l: Lexer): string {
    if l.tok.Some? then l.tok.value else []
  }

  /** One round of the loop on a character of the line. */
  function Step(l: Lexer, c: char): Lexer {
    var q := if c == '\"' && !l.escaped then !l.inQuotes else l.inQuotes;
    if !q && c == ' ' && !l.escaped && l.tok.Some? then
      Lexer(q, false, None, l.words + [l.tok.value])
    else if (c == '\\' || c == '\"') && !l.escaped then
      Lexer(q, c == '\\', Some(Collected(l)), l.words)
    else
      Lexer(q, c == '\\', Some(Collected(l) + [c]), l.words)
  }

  function Scan(l: Lexer, s: string): Lexer {
    if s == [] then l else Step(Scan(l, s[..|s| - 1]), s[|s| - 1])
  }

  /** The round at the terminating NUL stores the word being collected. */
  function Finish(l: Lexer): seq<string> {
    if l.tok.Some? then l.words + [l.tok.value] else l.words
  }

  datatype Parsed = Failed | Parsed(name: string, params: seq<string>)

  /** What `bitu_util_extract_params` answers; the parameter count is `|params|`. */
  function Parse(line: string): Parsed {
    var s := Strip(line);
    if s == [] then
      Failed
    else
      var words := Finish(Scan(START, s));
      Parsed(words[0], words[1..])
  }

  lemma {:induction false} ScanConcat(l: Lexer, s: string, t: string)
    ensures Scan(l, s + t) == Scan(Scan(l, s), t)
  {
    if t == [] {
      assert s + t == s;
    } else {
      var n := |t| - 1;
      ScanConcat(l, s, t[..n]);
      assert (s + t)[..|s + t| - 1] == s + t[..n];
    }
  }

  /** Cutting a word never loses the words cut before, nor the start of the open word. */
  lemma {:induction false} ScanPersists(l: Lexer, s: string)
    ensures l.words <= Scan(l, s).words
    ensures l.tok.Some? ==>
              var w := Finish(Scan(l, s));
              |l.words| < |w| && l.tok.value <= w[|l.words|]
  {
    if s != [] {
      ScanPersists(l, s[..|s| - 1]);
    }
  }

  method ExtractParams(line: string) returns (r: Parsed)
    ensures r == Parse(line)
  {
    var s := StrStrip(line);
    var fullLen := |s|;
    if fullLen == 0 {
      return Failed;
    }
    var insideQuotes := false;
    var ecmd: Option<string> := None;
    var eparams: seq<string> := [];
    var tok: Option<string> := None;
    ghost var words: seq<string> := [];
    for i := 0 to fullLen + 1
      invariant ecmd.None? ==> eparams == []
      invariant words == if ecmd.Some? then [ecmd.value] + eparams else []
      invariant i <= fullLen ==> Scan(START, s[..i]) == Lexer(insideQuotes, i > 0 && s[i - 1] == '\\', tok, words)
      invariant i == fullLen + 1 ==> words == Finish(Scan(START, s))
    {
      var c := if i < fullLen then s[i] else '\0';
      var escaped := i > 0 && s[i - 1] == '\\';
      assert i < fullLen ==> s[..i + 1][..i] == s[..i];
      assert i == fullLen ==> s[..i] == s;
      if c == '\"' && !escaped {
        insideQuotes := !insideQuotes;
      }
      if ((!insideQuotes && c == ' ' && !escaped) || i == fullLen) && tok.Some? {
        if ecmd.None? {
          ecmd := Some(tok.value);
        } else {
          eparams := eparams + [tok.value];
        }
        words := words + [tok.value];
        assert words == [ecmd.value] + eparams;
        tok := None;
      } else {
        if tok.None? {
          tok := Some([]);
        }
        if !((c == '\\' && !escaped) || (c == '\"' && !escaped)) {
          tok := Some(tok.value + [c]);
        }
      }
    }
    r := Parsed(ecmd.value, eparams);
  }
}
