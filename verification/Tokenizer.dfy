/** The line tokenizer (simulator/tokenizer.hpp, simulator/tokenizer.cpp), which splits its buffer in place. */
module Tokenizer {
  import opened Records
  import opened Text

  const LINESIZE: nat := 2048
  const TOKENSIZE: nat := 50

  // ----- C strings -----

  /** The C string that starts s. */
  function UpToNul(s: string): (r: string)
    ensures |r| <= |s|
  {
    if s == [] || s[0] == NUL then [] else [s[0]] + UpToNul(s[1..])
  }

  /** How many characters fgets takes: through the first newline, and max at most. */
  function ChunkLength(input: string, max: nat): (n: nat)
    ensures n <= |input| && n <= max
  {
    if input == [] || max == 0 then 0
    else if input[0] == '\n' then 1
    else 1 + ChunkLength(input[1..], max - 1)
  }

  function Chunk(input: string): string {
    input[..ChunkLength(input, LINESIZE - 1)]
  }

  /** The tokens of the next line. */
  function LineTokens(d: Delimiter, input: string): seq<string> {
    Split(d, UpToNul(Chunk(input)))
  }

  /** The tokens of every line up to the first one without any. */
  function AllLines(d: Delimiter, input: string): seq<seq<string>>
    decreases |input|
  {
    if input == [] || LineTokens(d, input) == [] then []
    else [LineTokens(d, input)] + AllLines(d, input[|Chunk(input)|..])
  }

  // ----- Where tokens start -----

  /** The starts of the tokens from position i on; afterGap tells whether a delimiter comes before i. */
  function StartsFrom(d: Delimiter, s: string, i: nat, afterGap: bool): seq<nat>
    requires i <= |s|
    decreases |s| - i
  {
    if i == |s| then []
    else if IsDelimiter(d, s[i]) then StartsFrom(d, s, i + 1, true)
    else (if afterGap then [i] else []) + StartsFrom(d, s, i + 1, false)
  }

  /** What is left to split at position i: inside a token, its rest is skipped. */
  function Rest(d: Delimiter, s: string, i: nat, afterGap: bool): string
    requires i <= |s|
  {
    if afterGap then s[i..] else s[i..][|Word(d, s[i..])|..]
  }

  /** The starts and the words step alike. */
  lemma StartStep(d: Delimiter, s: string, i: nat, afterGap: bool)
    requires i < |s|
    ensures var st, parts := StartsFrom(d, s, i, afterGap), Split(d, Rest(d, s, i, afterGap));
      var isGap := IsDelimiter(d, s[i]);
      var st', parts' := StartsFrom(d, s, i + 1, isGap), Split(d, Rest(d, s, i + 1, isGap));
      if isGap || !afterGap then st == st' && parts == parts'
      else st == [i] + st' && parts == [Word(d, s[i..])] + parts'
  {
  }

  ghost predicate WordsAt(d: Delimiter, s: string, st: seq<nat>, parts: seq<string>) {
    |st| == |parts| && forall k :: 0 <= k < |st| ==> st[k] < |s| && parts[k] == Word(d, s[st[k]..])
  }

  lemma WordsAtCons(d: Delimiter, s: string, i: nat, st: seq<nat>, parts: seq<string>)
    requires i < |s| && WordsAt(d, s, st, parts)
    ensures WordsAt(d, s, [i] + st, [Word(d, s[i..])] + parts)
  {
  }

  /** The words at the starts are exactly the maximal runs of non-delimiters. */
  lemma {:induction false} StartsAreSplit(d: Delimiter, s: string, i: nat, afterGap: bool)
    requires i <= |s|
    ensures WordsAt(d, s, StartsFrom(d, s, i, afterGap), Split(d, Rest(d, s, i, afterGap)))
    decreases |s| - i
  {
    if i < |s| {
      var isGap := IsDelimiter(d, s[i]);
      StartStep(d, s, i, afterGap);
      StartsAreSplit(d, s, i + 1, isGap);
      if !isGap && afterGap {
        WordsAtCons(d, s, i, StartsFrom(d, s, i + 1, isGap), Split(d, Rest(d, s, i + 1, isGap)));
      }
    }
  }

  /** A buffer in which the delimiters of s have been overwritten by NUL, and whose end is marked. */
  ghost predicate Masked(d: Delimiter, s: string, line: string) {
    && |s| < |line| && line[|s|] == NUL
    && forall i :: 0 <= i < |s| ==> s[i] != NUL && line[i] == if IsDelimiter(d, s[i]) then NUL else s[i]
  }

  lemma {:induction false} MaskedWord(d: Delimiter, s: string, line: string, i: nat)
    requires Masked(d, s, line) && i <= |s|
    ensures UpToNul(line[i..]) == Word(d, s[i..])
    decreases |s| - i
  {
    if i < |s| && !IsDelimiter(d, s[i]) {
      MaskedWord(d, s, line, i + 1);
      assert line[i..][1..] == line[i + 1..] && s[i..][1..] == s[i + 1..];
    }
  }

  lemma NulStep(s: string)
    ensures UpToNul(s) == if s == [] || s[0] == NUL then [] else [s[0]] + UpToNul(s[1..])
  {
  }

  // ----- The tokenizer -----

  class Tokenizer {
    var file: string  // what is left of the input
    const line: array<char>
    const starts: array<nat>
    var numTokens: nat
    var done: bool
    var curLine: nat
    const delimiter: Delimiter

    constructor (file: string, delimiter: Delimiter)
      ensures Valid() && fresh(line) && fresh(starts)
      ensures this.file == file && this.delimiter == delimiter && !done && numTokens == 0 && curLine == 0
    {
      this.file, this.delimiter := file, delimiter;
      line := new char[LINESIZE];
      starts := new nat[TOKENSIZE];
      numTokens, done, curLine := 0, false, 0;
    }

    ghost predicate Valid()
      reads this, starts
    {
      && line.Length == LINESIZE && starts.Length == TOKENSIZE && numTokens <= TOKENSIZE
      && forall i :: 0 <= i < numTokens ==> starts[i] < LINESIZE
    }

    /** The C string that token i points to. */
    ghost function TokenAt(i: nat): string
      requires Valid() && i < numTokens
      reads this, line, starts
    {
      UpToNul(line[starts[i]..])
    }

    /** Token i is the i-th element of `tokens`. */
    ghost predicate Holds(tokens: seq<string>)
      reads this, line, starts
    {
      && Valid() && numTokens == |tokens| && (done <==> tokens == [])
      && forall i :: 0 <= i < numTokens ==> TokenAt(i) == tokens[i]
    }

    /** fgets: copies the next chunk and ends it with NUL; false at the end of the file. */
    method Gets() returns (ok: bool)
      requires Valid()
      modifies line, this`file
      ensures Valid() && file == old(file)[|Chunk(old(file))|..]
      ensures ok <==> old(file) != []
      ensures ok ==> var chunk := Chunk(old(file));
        |chunk| < LINESIZE && line[..|chunk|] == chunk && line[|chunk|] == NUL
    {
      if file == [] {
        return false;
      }
      var n := ChunkLength(file, LINESIZE - 1);
      for i := 0 to n
        invariant file == old(file) && forall k :: 0 <= k < i ==> line[k] == file[k]
      {
        line[i] := file[i];
      }
      line[n] := NUL;
      file := file[n..];
      return true;
    }

    /** Splits the C string in the line buffer by overwriting its delimiters. */
    method SplitInPlace(ghost s: string)
      requires Valid() && |s| < LINESIZE && line[..|s|] == s && line[|s|] == NUL && NUL !in s
      requires |Split(delimiter, s)| <= TOKENSIZE
      modifies line, starts, this`numTokens
      ensures Valid() && Masked(delimiter, s, line[..])
      ensures starts[..numTokens] == StartsFrom(delimiter, s, 0, true)
    {
      numTokens := 0;
      var cur, afterGap := 0, true;
      ghost var all := StartsFrom(delimiter, s, 0, true);
      StartsAreSplit(delimiter, s, 0, true);
      assert s[0..] == s;
      while line[cur] != NUL && cur < LINESIZE
        invariant cur <= |s| && numTokens <= |all| <= TOKENSIZE
        invariant forall i :: 0 <= i < cur ==> line[i] == if IsDelimiter(delimiter, s[i]) then NUL else s[i]
        invariant forall i :: cur <= i < |s| ==> line[i] == s[i]
        invariant line[|s|] == NUL
        invariant starts[..numTokens] + StartsFrom(delimiter, s, cur, afterGap) == all
        decreases |s| - cur
      {
        if IsDelimiter(delimiter, line[cur]) {
          afterGap := true;
          line[cur] := NUL;
        } else {
          if afterGap {
            starts[numTokens] := cur;
            numTokens := numTokens + 1;
          }
          afterGap := false;
        }
        cur := cur + 1;
      }
      forall k | 0 <= k < numTokens ensures starts[k] < |s| {
        assert starts[k] == starts[..numTokens][k] == all[k];
      }
    }

    /** Reads the next line and breaks it into tokens. */
    method GetLine()
      requires Valid() && |LineTokens(delimiter, file)| <= TOKENSIZE
      modifies this, line, starts
      ensures Holds(LineTokens(delimiter, old(file)))
      ensures file == old(file)[|Chunk(old(file))|..]
      ensures curLine == old(curLine) + if old(file) == [] then 0 else 1
    {
      ghost var chunk := Chunk(file);
      ghost var s, tokens := UpToNul(chunk), LineTokens(delimiter, file);
      numTokens := 0;
      var ok := Gets();
      if ok {
        curLine := curLine + 1;
        ChunkInBuffer(chunk, line[..]);
        SplitInPlace(s);
        StartsAreSplit(delimiter, s, 0, true);
        assert s[0..] == s;
        forall i | 0 <= i < numTokens ensures TokenAt(i) == tokens[i] {
          assert starts[i] == starts[..numTokens][i];
          MaskedWord(delimiter, s, line[..], starts[i]);
          assert line[starts[i]..] == line[..][starts[i]..];
        }
      }
      done := numTokens == 0;
    }

    /** The C string at token i, read from the buffer. */
    method CString(i: nat) returns (t: string)
      requires Valid() && i < numTokens
      ensures t == TokenAt(i)
    {
      hide UpToNul;
      t := [];
      var k := starts[i];
      while k < line.Length && line[k] != NUL
        invariant starts[i] <= k <= line.Length
        invariant t + UpToNul(line[k..]) == TokenAt(i)
      {
        NulStep(line[k..]);
        assert line[k..][1..] == line[k + 1..];
        t := t + [line[k]];
        k := k + 1;
      }
      NulStep(line[k..]);
    }

    method GetInt(i: nat) returns (v: nat)
      requires Valid()
      ensures v == if i < numTokens then ScanInt(TokenAt(i)) else 0
    {
      if i < numTokens {
        var t := CString(i);
        v := ScanInt(t);
      } else {
        v := 0;
      }
    }

    /** None stands for the null pointer of a missing token. */
    method GetString(i: nat) returns (t: Option<string>)
      requires Valid()
      ensures t == if i < numTokens then Some(TokenAt(i)) else None
    {
      if i < numTokens {
        var s := CString(i);
        t := Some(s);
      } else {
        t := None;
      }
    }

    method GetChar(i: nat) returns (c: char)
      requires Valid()
      ensures i >= numTokens ==> c == NUL
      ensures i < numTokens ==> c == if TokenAt(i) == [] then NUL else TokenAt(i)[0]
    {
      if i < numTokens {
        c := line[starts[i]];
      } else {
        c := NUL;
      }
    }
  }

  lemma {:induction false} UpToNulIsPrefix(s: string)
    ensures UpToNul(s) == s[..|UpToNul(s)|] && NUL !in UpToNul(s)
    ensures |UpToNul(s)| < |s| ==> s[|UpToNul(s)|] == NUL
  {
    if s != [] && s[0] != NUL {
      UpToNulIsPrefix(s[1..]);
    }
  }

  /** The buffer that holds a chunk ended by NUL holds the C string of the chunk. */
  lemma ChunkInBuffer(chunk: string, line: string)
    requires |chunk| < |line| && line[..|chunk|] == chunk && line[|chunk|] == NUL
    ensures var s := UpToNul(chunk); line[..|s|] == s && line[|s|] == NUL && NUL !in s
  {
    UpToNulIsPrefix(chunk);
    var s := UpToNul(chunk);
    if |s| < |chunk| {
      assert line[|s|] == chunk[|s|];
    }
  }
}
