/** The lines of the trace: printed by QTRProxy.flushBuffer, decoded by the simulator's reader. */
module TraceFormat {
  import opened Records
  import opened Text
  import opened Tokenizer
  import opened TraceReader

  /** One traced event, as its five active hooks record it. */
  datatype Event =
    | MethodEntry(methodId: int, receiverId: int, threadId: int)
    | MethodExit(methodId: int, threadId: int)
    | ObjectAllocation(objectId: int, size: int, typeId: int, siteId: int, threadId: int)
    | ArrayAllocation(objectId: int, size: int, typeId: int, siteId: int, length: int, threadId: int, dims: seq<int>)
    | PutField(sourceId: int, targetId: int, fieldId: int, threadId: int)

  function CommaJoin(vs: seq<int>): string {
    if vs == [] then []
    else if |vs| == 1 then IntString(vs[0])
    else IntString(vs[0]) + "," + CommaJoin(vs[1..])
  }

  /** What saveDimsToBuffer stores: the number of dimensions, then the dimensions. */
  function DimsString(dims: seq<int>): string {
    IntString(|dims|) + "," + CommaJoin(dims)
  }

  /** The words of an event's line. */
  function Words(e: Event): seq<string> {
    match e
    case MethodEntry(m, r, t) => ["M", IntString(m), IntString(r), IntString(t)]
    case MethodExit(m, t) => ["E", IntString(m), IntString(t)]
    case ObjectAllocation(o, size, typeId, site, t) =>
      ["N", IntString(o), IntString(size), IntString(typeId), IntString(site), IntString(0), IntString(t)]
    case ArrayAllocation(o, size, typeId, site, length, t, dims) =>
      ["A", IntString(o), IntString(size), IntString(typeId), IntString(site), IntString(length), IntString(t),
       DimsString(dims)]
    case PutField(s, g, f, t) => ["U", UnsignedString(s), UnsignedString(g), IntString(f), IntString(t)]
  }

  function EventLine(e: Event): string {
    Join(Words(e)) + "\n"
  }

  function PrintAll(es: seq<Event>): string {
    if es == [] then [] else EventLine(es[0]) + PrintAll(es[1..])
  }

  // ----- Decoding -----

  function IntAt(tokens: seq<string>, i: nat): nat {
    if i < |tokens| then ScanInt(tokens[i]) else 0
  }

  /** The part of s before its first comma. */
  function BeforeComma(s: string): string {
    Word(Comma, s)
  }

  /** The dimension count of an array record: Some(None) when it is left unset, None when stoi throws. */
  function DimCount(dims: string): Option<Option<int>> {
    var num := BeforeComma(dims);
    if num == "0" then Some(None)
    else
      match ScanSigned(num)
      case None => None
      case Some(v) => if INT_MIN <= v <= INT_MAX then Some(Some(v)) else None
  }

  function DecodeAlloc(tokens: seq<string>, kind: char, numDims: Option<int>): Line {
    AllocLine(kind, IntAt(tokens, 1), IntAt(tokens, 2), IntAt(tokens, 3), IntAt(tokens, 4), IntAt(tokens, 5),
              IntAt(tokens, 6), numDims)
  }

  function DecodeArray(tokens: seq<string>): Line {
    if |tokens| != 8 then BadLine
    else
      match DimCount(tokens[7])
      case None => BadLine
      case Some(numDims) => DecodeAlloc(tokens, 'A', numDims)
  }

  function DecodeKind(kind: char, tokens: seq<string>): Line {
    if kind == 'M' then
      if |tokens| == 4 then MethodLine(IntAt(tokens, 1), IntAt(tokens, 2), IntAt(tokens, 3)) else BadLine
    else if kind == 'E' then
      if |tokens| == 3 then ExitLine(IntAt(tokens, 1), IntAt(tokens, 2)) else BadLine
    else if kind == 'A' then DecodeArray(tokens)
    else if kind == 'N' then
      if |tokens| == 7 then DecodeAlloc(tokens, 'N', Some(0)) else BadLine
    else if kind == 'U' then
      if |tokens| == 5 then UpdateLine(IntAt(tokens, 1), IntAt(tokens, 2), IntAt(tokens, 3), IntAt(tokens, 4))
      else BadLine
    else if kind == 'W' then WitnessLine(IntAt(tokens, 1), IntAt(tokens, 2), IntAt(tokens, 3))
    else UnknownLine
  }

  /** The switch of the reader on the first character of the line. */
  function Decode(tokens: seq<string>): Line {
    if tokens == [] || tokens[0] == [] then UnknownLine else DecodeKind(tokens[0][0], tokens)
  }

  predicate Fits(v: int) {
    0 <= v <= INT_MAX
  }

  predicate IsInt(v: int) {
    INT_MIN <= v <= INT_MAX
  }

  /** An int read into an unsigned int. */
  function Unsigned(v: int): nat {
    v % UINT_RANGE
  }

  /** Every printed number is an int, and the two ids that are printed as unsigned 64-bit numbers are not negative. */
  predicate InRange(e: Event) {
    match e
    case MethodEntry(m, r, t) => IsInt(m) && IsInt(r) && IsInt(t)
    case MethodExit(m, t) => IsInt(m) && IsInt(t)
    case ObjectAllocation(o, size, typeId, site, t) =>
      IsInt(o) && IsInt(size) && IsInt(typeId) && IsInt(site) && IsInt(t)
    case ArrayAllocation(o, size, typeId, site, length, t, dims) =>
      IsInt(o) && IsInt(size) && IsInt(typeId) && IsInt(site) && IsInt(length) && IsInt(t) && Fits(|dims|)
    case PutField(s, g, f, t) => Fits(s) && Fits(g) && IsInt(f) && IsInt(t)
  }

  /** The line the reader should see for an event. */
  function LineOf(e: Event): Line
    requires InRange(e)
  {
    match e
    case MethodEntry(m, r, t) => MethodLine(Unsigned(m), Unsigned(r), Unsigned(t))
    case MethodExit(m, t) => ExitLine(Unsigned(m), Unsigned(t))
    case ObjectAllocation(o, size, typeId, site, t) =>
      AllocLine('N', Unsigned(o), Unsigned(size), Unsigned(typeId), Unsigned(site), 0, Unsigned(t), Some(0))
    case ArrayAllocation(o, size, typeId, site, length, t, dims) =>
      AllocLine('A', Unsigned(o), Unsigned(size), Unsigned(typeId), Unsigned(site), Unsigned(length), Unsigned(t),
                if dims == [] then None else Some(|dims|))
    case PutField(s, g, f, t) => UpdateLine(s, g, Unsigned(f), Unsigned(t))
  }

  // ----- Round trip of one line -----

  predicate Plain(s: string) {
    forall c :: c in s ==> !IsBlank(c) && c != NUL
  }

  lemma IntStringIsWord(v: int)
    ensures IsWord(IntString(v)) && (forall c :: c in IntString(v) ==> c != ',')
  {
    DecimalIsDigits(if v < 0 then -v else v);
  }

  lemma {:induction false} CommaJoinIsPlain(vs: seq<int>)
    ensures Plain(CommaJoin(vs))
  {
    if vs != [] {
      IntStringIsWord(vs[0]);
      CommaJoinIsPlain(vs[1..]);
    }
  }

  lemma DimsStringIsWord(dims: seq<int>)
    ensures IsWord(DimsString(dims))
  {
    IntStringIsWord(|dims|);
    CommaJoinIsPlain(dims);
  }

  /** The parsed dimension count is the number of dimensions, and stays unset for none. */
  lemma DimCountRoundTrip(dims: seq<int>)
    requires Fits(|dims|)
    ensures DimCount(DimsString(dims)) == Some(if dims == [] then None else Some(|dims|))
  {
    var n := |dims|;
    IntStringIsWord(n);
    assert DimsString(dims) == IntString(n) + ("," + CommaJoin(dims));
    WordUpTo(Comma, IntString(n), "," + CommaJoin(dims));
    SplitRun(Comma, IntString(n));
    ScanDecimal(n);
    DecimalZero(n);
  }

  /** How often c occurs in s. */
  function Occurrences(c: char, s: string): nat {
    if s == [] then 0 else (if s[0] == c then 1 else 0) + Occurrences(c, s[1..])
  }

  lemma {:induction false} OccurrencesConcat(c: char, a: string, b: string)
    ensures Occurrences(c, a + b) == Occurrences(c, a) + Occurrences(c, b)
  {
    if a == [] {
      assert a + b == b;
    } else {
      assert (a + b)[1..] == a[1..] + b;
      OccurrencesConcat(c, a[1..], b);
    }
  }

  lemma {:induction false} NoOccurrence(c: char, s: string)
    requires c !in s
    ensures Occurrences(c, s) == 0
  {
    if s != [] {
      NoOccurrence(c, s[1..]);
    }
  }

  /** The parts are these numbers, each in decimal. */
  predicate AreNumbers(parts: seq<string>, vs: seq<int>) {
    |parts| == |vs| && forall i :: 0 <= i < |vs| ==> parts[i] == IntString(vs[i]) && ScanSigned(parts[i]) == Some(vs[i])
  }

  lemma NumbersNext(v: int, parts: seq<string>, vs: seq<int>)
    requires AreNumbers(parts, vs)
    ensures AreNumbers([IntString(v)] + parts, [v] + vs)
  {
    ScanIntString(v);
  }

  lemma {:induction false} SplitCommaJoin(vs: seq<int>)
    ensures AreNumbers(Split(Comma, CommaJoin(vs)), vs)
    ensures Occurrences(',', CommaJoin(vs)) == if vs == [] then 0 else |vs| - 1
  {
    hide IntString, ScanSigned;
    if vs != [] {
      var w, rest := IntString(vs[0]), if |vs| == 1 then [] else "," + CommaJoin(vs[1..]);
      SplitCommaJoin(vs[1..]);
      IntStringIsWord(vs[0]);
      SplitRun(Comma, w);
      if rest != [] {
        SplitAtDelimiter(Comma, w, ',', CommaJoin(vs[1..]));
      }
      NoOccurrence(',', w);
      OccurrencesConcat(',', w, rest);
      NumbersNext(vs[0], Split(Comma, CommaJoin(vs[1..])), vs[1..]);
      assert vs == [vs[0]] + vs[1..];
      assert CommaJoin(vs) == w + rest && (rest != [] ==> w + rest == w + [','] + CommaJoin(vs[1..]));
    }
  }

  /** The dimensions a slot stores read back: their number and then each of them, with single commas between. */
  lemma DimsRoundTrip(dims: seq<int>)
    ensures AreNumbers(Split(Comma, DimsString(dims)), [|dims|] + dims)
    ensures Occurrences(',', DimsString(dims)) == if dims == [] then 1 else |dims|
  {
    hide IntString, CommaJoin;
    var w, rest := IntString(|dims|), "," + CommaJoin(dims);
    SplitCommaJoin(dims);
    IntStringIsWord(|dims|);
    SplitRun(Comma, w);
    SplitAtDelimiter(Comma, w, ',', CommaJoin(dims));
    NoOccurrence(',', w);
    OccurrencesConcat(',', w, rest);
    NumbersNext(|dims|, Split(Comma, CommaJoin(dims)), dims);
    assert DimsString(dims) == w + rest == w + [','] + CommaJoin(dims);
  }

  lemma UnsignedIsInt(v: int)
    requires Fits(v)
    ensures UnsignedString(v) == IntString(v)
  {
    assert v % 0x1_0000_0000_0000_0000 == v;
  }

  /** A printed int is a word that scans back to it, as an unsigned int. */
  ghost predicate RoundTrips(v: int) {
    IsWord(IntString(v)) && ScanInt(IntString(v)) == Unsigned(v)
  }

  lemma NumberRoundTrip(v: int)
    requires IsInt(v)
    ensures RoundTrips(v)
  {
    IntStringIsWord(v);
    ScanIntString(v);
  }

  lemma MethodRoundTrip(m: int, r: int, t: int)
    requires InRange(MethodEntry(m, r, t))
    ensures var e := MethodEntry(m, r, t); (forall w :: w in Words(e) ==> IsWord(w)) && Decode(Words(e)) == LineOf(e)
  {
    hide IntString, UnsignedString, ScanInt;
    NumberRoundTrip(m);
    NumberRoundTrip(r);
    NumberRoundTrip(t);
  }

  lemma ExitRoundTrip(m: int, t: int)
    requires InRange(MethodExit(m, t))
    ensures var e := MethodExit(m, t); (forall w :: w in Words(e) ==> IsWord(w)) && Decode(Words(e)) == LineOf(e)
  {
    hide IntString, UnsignedString, ScanInt;
    NumberRoundTrip(m);
    NumberRoundTrip(t);
  }

  lemma PutFieldRoundTrip(s: int, g: int, f: int, t: int)
    requires InRange(PutField(s, g, f, t))
    ensures var e := PutField(s, g, f, t); (forall w :: w in Words(e) ==> IsWord(w)) && Decode(Words(e)) == LineOf(e)
  {
    hide IntString, UnsignedString, ScanInt;
    UnsignedIsInt(s);
    UnsignedIsInt(g);
    NumberRoundTrip(s);
    NumberRoundTrip(g);
    NumberRoundTrip(f);
    NumberRoundTrip(t);
  }

  /** The six numbers of an allocation line. */
  lemma AllocRoundTrip(head: string, o: int, size: int, typeId: int, site: int, length: int, t: int, tail: seq<string>,
                       kind: char, numDims: Option<int>)
    requires IsInt(o) && IsInt(size) && IsInt(typeId) && IsInt(site) && IsInt(length) && IsInt(t)
    requires IsWord(head) && forall w :: w in tail ==> IsWord(w)
    ensures var ws := [head, IntString(o), IntString(size), IntString(typeId), IntString(site), IntString(length),
                       IntString(t)] + tail;
      && (forall w :: w in ws ==> IsWord(w))
      && DecodeAlloc(ws, kind, numDims) == AllocLine(kind, Unsigned(o), Unsigned(size), Unsigned(typeId),
                                                     Unsigned(site), Unsigned(length), Unsigned(t), numDims)
  {
    hide IntString, UnsignedString, ScanInt, IsWord;
    NumberRoundTrip(o);
    NumberRoundTrip(size);
    NumberRoundTrip(typeId);
    NumberRoundTrip(site);
    NumberRoundTrip(length);
    NumberRoundTrip(t);
  }

  lemma ObjectRoundTrip(o: int, size: int, typeId: int, site: int, t: int)
    requires InRange(ObjectAllocation(o, size, typeId, site, t))
    ensures var e := ObjectAllocation(o, size, typeId, site, t);
      (forall w :: w in Words(e) ==> IsWord(w)) && Decode(Words(e)) == LineOf(e)
  {
    hide IntString, DecodeAlloc;
    var ws := Words(ObjectAllocation(o, size, typeId, site, t));
    AllocRoundTrip("N", o, size, typeId, site, 0, t, [], 'N', Some(0));
    assert ws == ws + [];
  }

  lemma ArrayRoundTrip(o: int, size: int, typeId: int, site: int, length: int, t: int, dims: seq<int>)
    requires InRange(ArrayAllocation(o, size, typeId, site, length, t, dims))
    ensures var e := ArrayAllocation(o, size, typeId, site, length, t, dims);
      (forall w :: w in Words(e) ==> IsWord(w)) && Decode(Words(e)) == LineOf(e)
  {
    hide IntString, DecodeAlloc, DimsString, DimCount;
    var ws := Words(ArrayAllocation(o, size, typeId, site, length, t, dims));
    DimsStringIsWord(dims);
    DimCountRoundTrip(dims);
    AllocRoundTrip("A", o, size, typeId, site, length, t, [DimsString(dims)], 'A',
                   if dims == [] then None else Some(|dims|));
    assert ws == ["A", IntString(o), IntString(size), IntString(typeId), IntString(site), IntString(length), IntString(t)]
              + [DimsString(dims)];
  }

  /** A line has single blanks between its words and one newline, at its end. */
  lemma {:induction false} JoinIsSingleSpaced(words: seq<string>)
    requires forall w :: w in words ==> IsWord(w)
    ensures Occurrences(' ', Join(words)) == if words == [] then 0 else |words| - 1
    ensures Occurrences('\n', Join(words)) == 0
  {
    if words != [] {
      var w, rest := words[0], Join(words[1..]);
      assert IsWord(w);
      NoOccurrence(' ', w);
      NoOccurrence('\n', w);
      JoinIsSingleSpaced(words[1..]);
      if |words| > 1 {
        assert Join(words) == w + (" " + rest);
        forall c | c in {' ', '\n'} ensures Occurrences(c, Join(words)) == Occurrences(c, " " + rest) {
          OccurrencesConcat(c, w, " " + rest);
        }
        assert (" " + rest)[1..] == rest;
      }
    }
  }

  lemma LineIsSingleSpaced(e: Event)
    requires InRange(e)
    ensures var line := EventLine(e);
      && Occurrences(' ', line) == |Words(e)| - 1 && Occurrences('\n', line) == 1 && line[|line| - 1] == '\n'
  {
    hide Words, Join;
    WordsRoundTrip(e);
    JoinIsSingleSpaced(Words(e));
    OccurrencesConcat(' ', Join(Words(e)), "\n");
    OccurrencesConcat('\n', Join(Words(e)), "\n");
    assert "\n"[1..] == [];
    EventHasWords(e);
  }

  lemma EventHasWords(e: Event)
    ensures Words(e) != []
  {
  }

  /** The reader takes a line of an event's kind exactly if it has as many words as the event's line. */
  lemma TokenCountDecides(e: Event, tokens: seq<string>)
    requires tokens != [] && tokens[0] == Words(e)[0]
    ensures Decode(tokens) == BadLine
       <==> |tokens| != |Words(e)| || (e.ArrayAllocation? && DimCount(tokens[7]) == None)
  {
  }

  /** A witness line, although no active hook prints one. */
  lemma WitnessLineRoundTrip(o: int, classId: int, time: int)
    requires IsInt(o) && IsInt(classId) && IsInt(time)
    ensures Decode(Split(Space, Join(["W", IntString(o), IntString(classId), IntString(time)]) + "\n"))
         == WitnessLine(Unsigned(o), Unsigned(classId), Unsigned(time))
  {
    hide IntString, ScanInt, Join;
    NumberRoundTrip(o);
    NumberRoundTrip(classId);
    NumberRoundTrip(time);
    SplitJoin(["W", IntString(o), IntString(classId), IntString(time)]);
  }

  /** The words of an event are proper words, and decode to the line the reader should see. */
  lemma WordsRoundTrip(e: Event)
    requires InRange(e)
    ensures forall w :: w in Words(e) ==> IsWord(w)
    ensures Decode(Words(e)) == LineOf(e)
  {
    hide IsWord, Decode, Words;
    match e
    case MethodEntry(m, r, t) => MethodRoundTrip(m, r, t);
    case MethodExit(m, t) => ExitRoundTrip(m, t);
    case ObjectAllocation(o, size, typeId, site, t) => ObjectRoundTrip(o, size, typeId, site, t);
    case ArrayAllocation(o, size, typeId, site, length, t, dims) =>
      ArrayRoundTrip(o, size, typeId, site, length, t, dims);
    case PutField(s, g, f, t) => PutFieldRoundTrip(s, g, f, t);
  }

  /** Tokenizing and decoding a printed line gives the event back, every field in its place. */
  lemma LineRoundTrip(e: Event)
    requires InRange(e)
    ensures Split(Space, EventLine(e)) == Words(e)
    ensures Decode(Split(Space, EventLine(e))) == LineOf(e)
  {
    WordsRoundTrip(e);
    SplitJoin(Words(e));
  }

  // ----- Round trip of a whole file -----

  /** fgets can take the line of e in one go. */
  predicate FitsLine(e: Event) {
    |Join(Words(e))| < LINESIZE - 1
  }

  function WordsOfAll(es: seq<Event>): seq<seq<string>> {
    if es == [] then [] else [Words(es[0])] + WordsOfAll(es[1..])
  }

  function DecodeAll(lines: seq<seq<string>>): seq<Line> {
    if lines == [] then [] else [Decode(lines[0])] + DecodeAll(lines[1..])
  }

  function LinesOf(es: seq<Event>): (ls: seq<Line>)
    requires forall e :: e in es ==> InRange(e)
    ensures |ls| == |es| && forall i :: 0 <= i < |es| ==> ls[i] == LineOf(es[i])
  {
    if es == [] then [] else [LineOf(es[0])] + LinesOf(es[1..])
  }

  lemma {:induction false} JoinIsClean(words: seq<string>)
    requires forall w :: w in words ==> IsWord(w)
    ensures '\n' !in Join(words) && NUL !in Join(words)
  {
    if words != [] {
      assert IsWord(words[0]);
      JoinIsClean(words[1..]);
    }
  }

  /** fgets stops at the newline that ends a line. */
  lemma {:induction false} ChunkIsLine(line: string, rest: string, max: nat)
    requires '\n' !in line && |line| < max
    ensures ChunkLength(line + "\n" + rest, max) == |line| + 1
    decreases |line|
  {
    if line != [] {
      ChunkIsLine(line[1..], rest, max - 1);
      assert (line + "\n" + rest)[1..] == line[1..] + "\n" + rest;
    }
  }

  lemma {:induction false} UpToNulOfClean(s: string)
    requires NUL !in s
    ensures UpToNul(s) == s
  {
    if s != [] {
      UpToNulOfClean(s[1..]);
    }
  }

  lemma FirstLine(e: Event, rest: string)
    requires InRange(e) && FitsLine(e)
    ensures var input := EventLine(e) + rest;
      Chunk(input) == EventLine(e) && input[|Chunk(input)|..] == rest && LineTokens(Space, input) == Words(e)
  {
    LineRoundTrip(e);
    WordsRoundTrip(e);
    JoinIsClean(Words(e));
    ChunkIsLine(Join(Words(e)), rest, LINESIZE - 1);
    var input := EventLine(e) + rest;
    assert input == Join(Words(e)) + "\n" + rest;
    assert input[..|EventLine(e)|] == EventLine(e);
    UpToNulOfClean(EventLine(e));
  }

  /** Printing events and reading the file back gives the same records in the same order. */
  lemma {:induction false} FileRoundTrip(es: seq<Event>)
    requires forall e :: e in es ==> InRange(e) && FitsLine(e)
    ensures AllLines(Space, PrintAll(es)) == WordsOfAll(es)
    ensures DecodeAll(AllLines(Space, PrintAll(es))) == LinesOf(es)
  {
    if es != [] {
      var rest := PrintAll(es[1..]);
      FirstLine(es[0], rest);
      FileRoundTrip(es[1..]);
      LineRoundTrip(es[0]);
      assert AllLines(Space, PrintAll(es)) == [Words(es[0])] + AllLines(Space, rest);
      assert WordsOfAll(es)[1..] == WordsOfAll(es[1..]);
    }
  }

  lemma BlankLineHasNoTokens(rest: string)
    ensures LineTokens(Space, "\n" + rest) == []
  {
    ChunkIsLine("", rest, LINESIZE - 1);
    assert "" + "\n" + rest == "\n" + rest;
    assert ("\n" + rest)[..1] == "\n";
    UpToNulOfClean("\n");
    assert Split(Space, "\n") == Split(Space, "\n"[1..]) == [];
  }

  /** A blank line ends the trace for the reader: what follows it is never read. */
  lemma {:induction false} BlankLineEndsTrace(es: seq<Event>, rest: string)
    requires forall e :: e in es ==> InRange(e) && FitsLine(e)
    ensures AllLines(Space, PrintAll(es) + "\n" + rest) == WordsOfAll(es)
  {
    if es == [] {
      BlankLineHasNoTokens(rest);
      assert PrintAll(es) + "\n" + rest == "\n" + rest;
    } else {
      var tail := PrintAll(es[1..]) + "\n" + rest;
      FirstLine(es[0], tail);
      BlankLineEndsTrace(es[1..], rest);
      assert PrintAll(es) + "\n" + rest == EventLine(es[0]) + tail;
      assert AllLines(Space, EventLine(es[0]) + tail) == [Words(es[0])] + AllLines(Space, tail);
    }
  }
}
