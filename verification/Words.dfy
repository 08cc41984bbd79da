/** What the tokenizer of src/util.c does to a line, told by the positions of the line alone: where a
    quote is open, where words are cut, and what is left of them. */
module Words {
  import opened Options
  import opened Util

  /** A backslash stands directly before the character. */
  predicate Protected(s: string, i: nat)
    requires i < |s|
  {
    i > 0 && s[i - 1] == '\\'
  }

  /** The quotes among the first n characters with no backslash directly before them. */
  function QuoteCount(s: string, n: nat): nat
    requires n <= |s|
  {
    if n == 0 then 0 else QuoteCount(s, n - 1) + if s[n - 1] == '\"' && !Protected(s, n - 1) then 1 else 0
  }

  /** A word ends at a blank that is neither protected nor inside quotes, unless no word has begun
      since the start of the line or the last cut. */
  predicate CutAt(s: string, i: nat)
    requires i < |s|
  {
    s[i] == ' ' && !Protected(s, i) && QuoteCount(s, i) % 2 == 0 && i > 0 && !CutAt(s, i - 1)
  }

  /** A backslash or a quote with no backslash before it is not part of the text. */
  predicate Dropped(s: string, i: nat)
    requires i < |s|
  {
    (s[i] == '\\' || s[i] == '\"') && !Protected(s, i)
  }

  /** What is left of the characters from lo up to hi. */
  function Text(s: string, lo: nat, hi: nat): string
    requires lo <= hi <= |s|
  {
    if lo == hi then [] else Text(s, lo, hi - 1) + if Dropped(s, hi - 1) then [] else [s[hi - 1]]
  }

  /** Where the word at position n begins: after the last cut before n, or at the start of the line. */
  function Begin(s: string, n: nat): (b: nat)
    requires n <= |s|
    ensures b <= n
  {
    if n == 0 then 0 else if CutAt(s, n - 1) then n else Begin(s, n - 1)
  }

  /** The words cut among the first n characters. */
  function WordsCut(s: string, n: nat): seq<string>
    requires n <= |s|
  {
    if n == 0 then
      []
    else
      WordsCut(s, n - 1) + if CutAt(s, n - 1) then [Text(s, Begin(s, n - 1), n - 1)] else []
  }

  /** No cut lies between the begin of a word and its end, and one lies right before it. */
  lemma {:induction false} BeginIsLastCut(s: string, n: nat)
    requires n <= |s|
    ensures Begin(s, n) > 0 ==> CutAt(s, Begin(s, n) - 1)
    ensures forall i :: Begin(s, n) <= i < n ==> !CutAt(s, i)
  {
    if n > 0 {
      BeginIsLastCut(s, n - 1);
    }
  }

  /** The codes that count as white space: blank, tab, line feed, vertical tab, form feed, carriage
      return. */
  lemma SpaceCodes(c: char)
    ensures IsSpace(c) <==>
              c == ' ' || c == '\t' || c == '\n' || c as int == 11 || c as int == 12 || c == '\r'
  {
  }

  /** The scan of the first n characters has cut these words and is collecting the text since. */
  ghost predicate Reads(s: string, n: nat, l: Lexer)
    requires n <= |s|
  {
    && (l.inQuotes <==> QuoteCount(s, n) % 2 == 1)
    && (l.escaped <==> n > 0 && s[n - 1] == '\\')
    && l.words == WordsCut(s, n)
    && l.tok == if Begin(s, n) == n then None else Some(Text(s, Begin(s, n), n))
  }

  lemma ReadsNext(s: string, n: nat, l: Lexer)
    requires n < |s| && Reads(s, n, l)
    ensures Reads(s, n + 1, Step(l, s[n]))
  {
    assert Begin(s, n) == n <==> n == 0 || CutAt(s, n - 1);
    if !CutAt(s, n) {
      assert Begin(s, n + 1) == Begin(s, n) && Collected(l) == Text(s, Begin(s, n), n);
      assert Text(s, Begin(s, n), n + 1) == if Dropped(s, n) then Collected(l) else Collected(l) + [s[n]];
    } else {
      assert Begin(s, n) != n && Begin(s, n + 1) == n + 1;
    }
  }

  lemma {:induction false} ScanReads(s: string, n: nat)
    requires n <= |s|
    ensures Reads(s, n, Scan(START, s[..n]))
  {
    if n > 0 {
      ScanReads(s, n - 1);
      ReadsNext(s, n - 1, Scan(START, s[..n - 1]));
      assert s[..n][..n - 1] == s[..n - 1];
    }
  }

  /** A quote is open exactly after an odd number of quotes that have no backslash before them. */
  lemma QuotesByParity(s: string)
    ensures Scan(START, s).inQuotes <==> QuoteCount(s, |s|) % 2 == 1
  {
    ScanReads(s, |s|);
    assert s[..|s|] == s;
  }

  /** What a line is read as: nothing when all of it is white space; otherwise, with the white space
      at both ends gone, the words cut in it and the text since the last cut, the first as the command. */
  lemma ParseMeans(line: string)
    ensures Parse(line) == Failed <==> forall i :: 0 <= i < |line| ==> IsSpace(line[i])
    ensures Parse(line).Parsed? ==>
              var s := Strip(line);
              [Parse(line).name] + Parse(line).params == WordsCut(s, |s|) + [Text(s, Begin(s, |s|), |s|)]
  {
    var lo, hi := StripKeepsTheMiddle(line);
    var s := Strip(line);
    if s != [] {
      ScanReads(s, |s|);
      assert s[..|s|] == s && !CutAt(s, |s| - 1) && line[lo] == s[0];
    }
  }
}
