/** How an argument file is cut into arguments. */
module Tokens {
  import opened Totals

  predicate IsSeparator(c: char) {
    c == ' ' || c == '\n'
  }

  function Flush(word: string): seq<string> {
    if word == "" then [] else [word]
  }

  /** One pass over the text that cuts at both separators at once; `word` is what
      has been read of the current word. */
  function Words(text: string, word: string := ""): seq<string>
    decreases |text|
  {
    if text == "" then Flush(word)
    else if IsSeparator(text[0]) then Flush(word) + Words(text[1..], "")
    else Words(text[1..], word + [text[0]])
  }

  ghost predicate Solid(word: string) {
    word != "" && forall i | 0 <= i < |word| :: !IsSeparator(word[i])
  }

  function JoinSpaced(words: seq<string>): string {
    if words == [] then "" else words[0] + " " + JoinSpaced(words[1..])
  }

  lemma {:induction false} WordsAtSeparator(a: string, c: char, b: string, word: string)
    requires IsSeparator(c)
    ensures Words(a + [c] + b, word) == Words(a, word) + Words(b)
    decreases |a|
  {
    if a == "" {
      assert (a + [c] + b)[0] == c && (a + [c] + b)[1..] == b;
    } else {
      var next := if IsSeparator(a[0]) then "" else word + [a[0]];
      WordsAtSeparator(a[1..], c, b, next);
      assert (a + [c] + b)[0] == a[0] && (a + [c] + b)[1..] == a[1..] + [c] + b;
    }
  }

  lemma {:induction false} WordsOfSolid(a: string, word: string)
    requires forall i | 0 <= i < |a| :: !IsSeparator(a[i])
    ensures Words(a, word) == Flush(word + a)
    decreases |a|
  {
    if a == "" {
      assert word + a == word;
    } else {
      WordsOfSolid(a[1..], word + [a[0]]);
      assert word + [a[0]] + a[1..] == word + a;
    }
  }

  lemma {:induction false} WordsAreSolid(text: string, word: string)
    requires forall i | 0 <= i < |word| :: !IsSeparator(word[i])
    ensures forall k | 0 <= k < |Words(text, word)| :: Solid(Words(text, word)[k])
    decreases |text|
  {
    if text == "" {
    } else {
      if IsSeparator(text[0]) {
        WordsAreSolid(text[1..], "");
      } else {
        WordsAreSolid(text[1..], word + [text[0]]);
      }
    }
  }

  lemma {:induction false} JoinThenCut(words: seq<string>)
    requires forall k | 0 <= k < |words| :: Solid(words[k])
    ensures Words(JoinSpaced(words)) == words
  {
    if words == [] {
    } else {
      JoinThenCut(words[1..]);
      WordsAtSeparator(words[0], ' ', JoinSpaced(words[1..]), "");
      WordsOfSolid(words[0], "");
      assert "" + words[0] == words[0];
    }
  }

  /** Cutting a text, joining the words with spaces and cutting again gives the
      same words. */
  lemma CutJoinCut(text: string)
    ensures Words(JoinSpaced(Words(text))) == Words(text)
  {
    WordsAreSolid(text, "");
    JoinThenCut(Words(text));
  }

  /** What the cutting comes to, and nothing else does: no text, no words; a text
      without spaces and line ends is one word; and spaces and line ends part texts
      from each other. */
  lemma WordsAreDetermined(word: string, a: string, b: string)
    ensures Words("") == []
    ensures word != "" && ' ' !in word && '\n' !in word ==> Words(word) == [word]
    ensures Words(a + " " + b) == Words(a) + Words(b)
    ensures Words(a + "\n" + b) == Words(a) + Words(b)
  {
    WordsAtSeparator(a, ' ', b, "");
    WordsAtSeparator(a, '\n', b, "");
    if word != "" && ' ' !in word && '\n' !in word {
      WordsOfSolid(word, "");
      assert "" + word == word;
    }
  }

  /** The line that was read is what stands before the next delimiter or the end. */
  ghost predicate IsLine(text: string, pos: nat, delimiter: char, line: string, next: nat) {
    && pos + |line| <= |text| && pos <= next <= |text|
    && line == text[pos..pos + |line|] && delimiter !in line
    && if pos + |line| < |text| then next == pos + |line| + 1 && text[next - 1] == delimiter
       else next == |text|
  }

  /** Reads up to the delimiter or the end; fails when nothing is left. */
  method GetLine(text: string, pos: nat, delimiter: char) returns (ok: bool, line: string, next: nat)
    requires pos <= |text|
    ensures ok <==> pos < |text|
    ensures IsLine(text, pos, delimiter, line, next)
  {
    next, line := pos, "";
    while next < |text| && text[next] != delimiter
      invariant pos <= next <= |text|
      invariant line == text[pos..next] && delimiter !in line
    {
      line := line + [text[next]];
      next := next + 1;
    }
    ok := pos < |text|;
    if next < |text| {
      next := next + 1;
    }
  }

  lemma CutLine(text: string, pos: nat, delimiter: char, line: string, next: nat)
    requires IsLine(text, pos, delimiter, line, next) && IsSeparator(delimiter)
    ensures Words(text[pos..]) == Words(line) + Words(text[next..])
  {
    if pos + |line| < |text| {
      WordsAtSeparator(line, delimiter, text[next..], "");
      assert text[pos..] == line + [delimiter] + text[next..];
    } else {
      assert text[pos..] == line;
    }
  }

  lemma FieldIsWord(line: string, p: nat, field: string, q: nat)
    requires '\n' !in line && IsLine(line, p, ' ', field, q)
    ensures Words(line[p..]) == Flush(field) + Words(line[q..])
  {
    CutLine(line, p, ' ', field, q);
    forall i | 0 <= i < |field| ensures !IsSeparator(field[i]) {
      assert field[i] in field && field[i] == line[p + i] && line[p + i] in line;
    }
    WordsOfSolid(field, "");
    assert "" + field == field;
  }

  lemma EmptyHasNoWords()
    ensures Words("") == []
  {
  }

  /** The inner loop: cuts one line at its spaces. */
  method ReadFields(line: string) returns (words: seq<string>)
    requires '\n' !in line
    ensures words == Words(line)
  {
    words := [];
    var pos := 0;
    assert line[0..] == line;
    var ok, arg, next := GetLine(line, pos, ' ');
    while ok
      invariant pos <= |line| && (ok <==> pos < |line|) && IsLine(line, pos, ' ', arg, next)
      invariant words + Words(line[pos..]) == Words(line)
      decreases |line| - pos
    {
      FieldIsWord(line, pos, arg, next);
      if arg != "" {
        words := words + [arg];
      }
      pos := next;
      ok, arg, next := GetLine(line, pos, ' ');
    }
  }

  /** The line-then-space cutting of argument files finds the words of the single
      pass over both separators. */
  method ReadWords(text: string) returns (words: seq<string>)
    ensures words == Words(text)
  {
    EmptyHasNoWords();
    hide Words;
    words := [];
    var pos := 0;
    assert text[0..] == text;
    var ok, line, next := GetLine(text, pos, '\n');
    while ok
      invariant pos <= |text| && (ok <==> pos < |text|) && IsLine(text, pos, '\n', line, next)
      invariant words + Words(text[pos..]) == Words(text)
      decreases |text| - pos
    {
      CutLine(text, pos, '\n', line, next);
      var fields := [];
      if line != "" {
        fields := ReadFields(line);
      }
      Regroup(words, fields, Words(text[next..]));
      words := words + fields;
      pos := next;
      ok, line, next := GetLine(text, pos, '\n');
    }
    assert text[pos..] == "" && words + [] == words;
  }
}
