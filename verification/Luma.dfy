/**
 * The command-line tokeniser, userland/luma/luma_parser.c. It compacts the line in place: each
 * argument is a view into the same buffer it is read from.
 */
module Luma {
  import opened Status
  import opened Unicode

  const SPACE: byte := 0x20
  const TAB: byte := 0x09
  const QUOTE: byte := 0x22
  const BACKSLASH: byte := 0x5c

  predicate IsSpace(b: byte) { b == SPACE || b == TAB }

  predicate Escapable(b: byte) { b == QUOTE || b == BACKSLASH }

  /** One argument, what follows it, and whether its quote was closed. */
  datatype Lexed = Lexed(token: seq<byte>, rest: seq<byte>, closed: bool)

  function Cons(b: byte, l: Lexed): Lexed { l.(token := [b] + l.token) }

  function Quoted(s: seq<byte>): (l: Lexed)
    ensures |l.rest| <= |s|
    decreases |s|
  {
    if s == [] then Lexed([], [], false)
    else if s[0] == QUOTE then Lexed([], s[1..], true)
    else if s[0] == BACKSLASH && |s| >= 2 && Escapable(s[1]) then Cons(s[1], Quoted(s[2..]))
    else Cons(s[0], Quoted(s[1..]))
  }

  function Bare(s: seq<byte>): (l: Lexed)
    ensures |l.rest| <= |s|
    ensures s != [] && !IsSpace(s[0]) ==> |l.rest| < |s|
    decreases |s|
  {
    if s == [] || IsSpace(s[0]) then Lexed([], s, true) else Cons(s[0], Bare(s[1..]))
  }

  function Lex(s: seq<byte>): (l: Lexed)
    requires s != [] && !IsSpace(s[0])
    ensures |l.rest| < |s|
  {
    if s[0] == QUOTE then Quoted(s[1..]) else Bare(s)
  }

  function Skip(s: seq<byte>): (r: seq<byte>)
    ensures |r| <= |s|
    ensures r != [] ==> !IsSpace(r[0])
  {
    if s != [] && IsSpace(s[0]) then Skip(s[1..]) else s
  }

  datatype Tokenised = Tokens(arguments: seq<seq<byte>>) | Refused(status: Status)

  function Accept(token: seq<byte>, r: Tokenised): Tokenised {
    if r.Tokens? then Tokens([token] + r.arguments) else r
  }

  /** The arguments of a line, given room for so many. */
  function Tokenise(s: seq<byte>, capacity: nat): Tokenised
    decreases |s|
  {
    var t := Skip(s);
    if t == [] then Tokens([])
    else if capacity == 0 then Refused(BufferTooSmall)
    else
      var l := Lex(t);
      if !l.closed || (l.rest != [] && !IsSpace(l.rest[0])) then Refused(InvalidArgument)
      else Accept(l.token, Tokenise(l.rest, capacity - 1))
  }

  // The quoting printer that the tokeniser undoes.

  function Escape(s: seq<byte>): seq<byte> {
    if s == [] then []
    else (if s[0] == 0x22 || s[0] == 0x5c then [0x5c, s[0]] else [s[0]]) + Escape(s[1..])
  }

  function QuoteArgument(s: seq<byte>): seq<byte> {
    [0x22] + Escape(s) + [0x22]
  }

  function Print(arguments: seq<seq<byte>>): seq<byte> {
    if arguments == [] then []
    else if |arguments| == 1 then QuoteArgument(arguments[0])
    else QuoteArgument(arguments[0]) + [SPACE] + Print(arguments[1..])
  }

  lemma {:induction false} QuotedUndoesEscape(s: seq<byte>, rest: seq<byte>)
    ensures Quoted(Escape(s) + [QUOTE] + rest) == Lexed(s, rest, true)
    decreases |s|
  {
    if s == [] {
      assert ([QUOTE] + rest)[1..] == rest;
      assert Escape(s) + [QUOTE] + rest == [QUOTE] + rest;
    } else {
      var tail := Escape(s[1..]) + [QUOTE] + rest;
      var head := if Escapable(s[0]) then [BACKSLASH, s[0]] else [s[0]];
      assert Escape(s) + [QUOTE] + rest == head + tail;
      assert (head + tail)[|head|..] == tail;
      QuotedUndoesEscape(s[1..], rest);
      assert [s[0]] + s[1..] == s;
    }
  }

  lemma LexUndoesQuote(s: seq<byte>, rest: seq<byte>)
    ensures var t := QuoteArgument(s) + rest;
            Skip(t) == t && t != [] && Lex(t) == Lexed(s, rest, true)
  {
    var t := QuoteArgument(s) + rest;
    assert t[1..] == Escape(s) + [QUOTE] + rest;
    QuotedUndoesEscape(s, rest);
  }

  /** Tokenising undoes printing, given room; with too little room the line is refused. */
  lemma {:induction false} RoundTrip(arguments: seq<seq<byte>>, capacity: nat)
    ensures Tokenise(Print(arguments), capacity)
         == if |arguments| <= capacity then Tokens(arguments) else Refused(BufferTooSmall)
    decreases |arguments|
  {
    hide Lex, Quoted, QuoteArgument;
    if arguments == [] {
    } else {
      var rest := if |arguments| == 1 then [] else [SPACE] + Print(arguments[1..]);
      LexUndoesQuote(arguments[0], rest);
      assert Print(arguments) == QuoteArgument(arguments[0]) + rest;
      if capacity > 0 {
        RoundTrip(arguments[1..], capacity - 1);
        if |arguments| > 1 {
          LeadingSpace(Print(arguments[1..]), capacity - 1);
        } else {
          assert arguments[1..] == [];
        }
        assert [arguments[0]] + arguments[1..] == arguments;
      }
    }
  }

  lemma LeadingSpace(s: seq<byte>, capacity: nat)
    ensures Tokenise([SPACE] + s, capacity) == Tokenise(s, capacity)
  {
    hide Lex;
    assert ([SPACE] + s)[1..] == s;
    assert Skip([SPACE] + s) == Skip(s);
  }

  // Any way of writing arguments.

  /** An argument with the white space before it, in quotes or as a bare word. */
  datatype Word = Word(gap: seq<byte>, bytes: seq<byte>, quoted: bool)

  predicate AllSpaces(s: seq<byte>) {
    forall i :: 0 <= i < |s| ==> s[i] == 0x20 || s[i] == 0x09
  }

  predicate Plain(s: seq<byte>) {
    s != [] && s[0] != 0x22 && forall i :: 0 <= i < |s| ==> s[i] != 0x20 && s[i] != 0x09
  }

  function Written(w: Word): seq<byte> {
    if w.quoted then QuoteArgument(w.bytes) else w.bytes
  }

  function Line(words: seq<Word>, tail: seq<byte>): seq<byte> {
    if words == [] then tail else words[0].gap + (Written(words[0]) + Line(words[1..], tail))
  }

  predicate LineOk(words: seq<Word>, tail: seq<byte>) {
    && AllSpaces(tail)
    && (forall i :: 0 <= i < |words| ==> AllSpaces(words[i].gap) && (words[i].quoted || Plain(words[i].bytes)))
    && (forall i :: 0 < i < |words| ==> words[i].gap != [])
  }

  function Arguments(words: seq<Word>): seq<seq<byte>> {
    if words == [] then [] else [words[0].bytes] + Arguments(words[1..])
  }

  lemma {:induction false} GapSkipped(gap: seq<byte>, s: seq<byte>)
    requires AllSpaces(gap)
    ensures Skip(gap + s) == Skip(s)
    decreases |gap|
  {
    if gap == [] {
      assert gap + s == s;
    } else {
      assert (gap + s)[1..] == gap[1..] + s;
      GapSkipped(gap[1..], s);
    }
  }

  lemma {:induction false} BareStops(word: seq<byte>, rest: seq<byte>)
    requires forall i :: 0 <= i < |word| ==> !IsSpace(word[i])
    requires rest == [] || IsSpace(rest[0])
    ensures Bare(word + rest) == Lexed(word, rest, true)
    decreases |word|
  {
    if word == [] {
      assert word + rest == rest;
    } else {
      assert (word + rest)[1..] == word[1..] + rest;
      BareStops(word[1..], rest);
      assert [word[0]] + word[1..] == word;
    }
  }

  lemma WordLexed(w: Word, rest: seq<byte>)
    requires w.quoted || Plain(w.bytes)
    requires rest == [] || IsSpace(rest[0])
    ensures var t := Written(w) + rest;
            Skip(t) == t && t != [] && Lex(t) == Lexed(w.bytes, rest, true)
  {
    if w.quoted {
      LexUndoesQuote(w.bytes, rest);
    } else {
      BareStops(w.bytes, rest);
    }
  }

  lemma RestStarts(words: seq<Word>, tail: seq<byte>)
    requires LineOk(words, tail) && (words != [] ==> words[0].gap != [])
    ensures Line(words, tail) == [] || IsSpace(Line(words, tail)[0])
  {
  }

  /**
   * However arguments are written, in quotes or bare, with any white space between and around them,
   * tokenising returns them, given room.
   */
  lemma {:induction false} LineRoundTrip(words: seq<Word>, tail: seq<byte>, capacity: nat)
    requires LineOk(words, tail)
    ensures Tokenise(Line(words, tail), capacity)
         == if |words| <= capacity then Tokens(Arguments(words)) else Refused(BufferTooSmall)
    decreases |words|
  {
    hide Lex, Written;
    if words == [] {
      GapSkipped(tail, []);
      assert tail + [] == tail;
    } else {
      var w, rest := words[0], Line(words[1..], tail);
      RestStarts(words[1..], tail);
      WordLexed(w, rest);
      GapSkipped(w.gap, Written(w) + rest);
      if capacity > 0 {
        LineRoundTrip(words[1..], tail, capacity - 1);
      }
    }
  }

  lemma {:induction false} EscapeNeverCloses(s: seq<byte>)
    ensures !Quoted(Escape(s)).closed
    decreases |s|
  {
    if s != [] {
      var head := if Escapable(s[0]) then [BACKSLASH, s[0]] else [s[0]];
      assert Escape(s)[|head|..] == Escape(s[1..]);
      EscapeNeverCloses(s[1..]);
    }
  }

  /** A quote that is not closed, or one closed right before more text, is refused. */
  lemma BadQuotesRefused(gap: seq<byte>, bytes: seq<byte>, more: seq<byte>, capacity: nat)
    requires AllSpaces(gap) && capacity > 0 && more != [] && !IsSpace(more[0])
    ensures Tokenise(gap + ([QUOTE] + Escape(bytes)), capacity) == Refused(InvalidArgument)
    ensures Tokenise(gap + (QuoteArgument(bytes) + more), capacity) == Refused(InvalidArgument)
  {
    EscapeNeverCloses(bytes);
    LexUndoesQuote(bytes, more);
    hide Quoted, Escape, QuoteArgument;
    GapSkipped(gap, [QUOTE] + Escape(bytes));
    GapSkipped(gap, QuoteArgument(bytes) + more);
    assert ([QUOTE] + Escape(bytes))[1..] == Escape(bytes);
  }

  lemma {:induction false} EscapeConcat(a: seq<byte>, b: seq<byte>)
    ensures Escape(a + b) == Escape(a) + Escape(b)
  {
    if a == [] {
      assert a + b == b;
    } else {
      assert (a + b)[1..] == a[1..] + b;
      EscapeConcat(a[1..], b);
    }
  }

  lemma {:induction false} EscapeNothing(s: seq<byte>)
    requires forall i :: 0 <= i < |s| ==> !Escapable(s[i])
    ensures Escape(s) == s
  {
    if s != [] {
      EscapeNothing(s[1..]);
      assert s == [s[0]] + s[1..];
    }
  }

  function EscapeScalars(cs: seq<scalar>): seq<scalar> {
    if cs == [] then []
    else (if cs[0] == QUOTE || cs[0] == BACKSLASH then [BACKSLASH as scalar, cs[0]] else [cs[0]]) + EscapeScalars(cs[1..])
  }

  lemma EscapeOne(c: scalar)
    ensures Escape(Encode(c)) == if c == QUOTE || c == BACKSLASH then [BACKSLASH] + Encode(c) else Encode(c)
  {
    if c == QUOTE || c == BACKSLASH {
      assert Encode(c) == [c];
      assert Escape([c]) == [BACKSLASH, c] + Escape([]);
    } else {
      EscapeNothing(Encode(c));
    }
  }

  lemma EncodeTwo(c: scalar)
    requires c == QUOTE || c == BACKSLASH
    ensures EncodeAll([BACKSLASH as scalar, c]) == [BACKSLASH] + Encode(c)
  {
    EncodeAllConcat([BACKSLASH as scalar], [c]);
    assert [BACKSLASH as scalar] + [c] == [BACKSLASH as scalar, c];
    assert EncodeAll([BACKSLASH as scalar]) == Encode(BACKSLASH as scalar) == [BACKSLASH];
    assert EncodeAll([c]) == Encode(c);
  }

  /** Escaping works on bytes, yet never splits a character. */
  lemma {:induction false} EscapeKeepsCharacters(cs: seq<scalar>)
    ensures Escape(EncodeAll(cs)) == EncodeAll(EscapeScalars(cs))
  {
    hide Encode, Escapable;
    if cs != [] {
      var c := cs[0];
      EscapeConcat(Encode(c), EncodeAll(cs[1..]));
      EscapeOne(c);
      EscapeKeepsCharacters(cs[1..]);
      var head := if c == QUOTE || c == BACKSLASH then [BACKSLASH as scalar, c] else [c];
      EncodeAllConcat(head, EscapeScalars(cs[1..]));
      if c == QUOTE || c == BACKSLASH {
        EncodeTwo(c);
      } else {
        assert [c][1..] == [];
        assert EncodeAll([c]) == Encode(c);
      }
    }
  }

  lemma AsciiValid(b: byte)
    requires b <= 0x7f
    ensures Valid([b])
  {
    assert [b][1..] == [];
    assert Scalars([]) == Some([]);
  }

  lemma QuotedValid(s: seq<byte>)
    requires Valid(s)
    ensures Valid(QuoteArgument(s))
  {
    hide Escape, Scalars;
    var cs := Scalars(s).value;
    EncodingOfScalars(s);
    EscapeKeepsCharacters(cs);
    ScalarsOfEncoding(EscapeScalars(cs));
    EncodedValid(EscapeScalars(cs));
    AsciiValid(QUOTE);
    ValidConcat([QUOTE], Escape(s));
    ValidConcat([QUOTE] + Escape(s), [QUOTE]);
  }

  lemma EncodedValid(cs: seq<scalar>)
    ensures Valid(EncodeAll(cs))
  {
    ScalarsOfEncoding(cs);
  }

  /** Printed text passes the validation that the tokeniser makes first. */
  lemma {:induction false} PrintedValid(arguments: seq<seq<byte>>)
    requires forall i :: 0 <= i < |arguments| ==> Valid(arguments[i])
    ensures Valid(Print(arguments))
  {
    hide Valid, QuoteArgument;
    if arguments == [] {
      NothingValid();
    } else {
      QuotedValid(arguments[0]);
      if |arguments| > 1 {
        PrintedValid(arguments[1..]);
        AsciiValid(SPACE);
        ValidConcat(QuoteArgument(arguments[0]), [SPACE]);
        ValidConcat(QuoteArgument(arguments[0]) + [SPACE], Print(arguments[1..]));
      }
    }
  }

  lemma NothingValid()
    ensures Valid([])
  {
  }

  // The tokeniser itself.

  datatype View = View(start: nat, size: nat)

  /** The bytes a view shows. */
  function Shown(line: seq<byte>, v: View): seq<byte> {
    if v.start + v.size <= |line| then line[v.start..v.start + v.size] else []
  }

  /** The views hold the arguments in order, one after another, all before the write position. */
  ghost predicate Holds(line: seq<byte>, views: seq<View>, arguments: seq<seq<byte>>, write: nat) {
    && |views| == |arguments|
    && forall k :: 0 <= k < |views| ==>
         && views[k].start + views[k].size <= write <= |line|
         && Shown(line, views[k]) == arguments[k]
  }

  /** Writing at or past the write position never disturbs a finished argument. */
  lemma HoldsKept(line: seq<byte>, line': seq<byte>, views: seq<View>, arguments: seq<seq<byte>>, write: nat, write': nat)
    requires Holds(line, views, arguments, write)
    requires write <= write' <= |line'| && write <= |line| && line[..write] == line'[..write]
    ensures Holds(line', views, arguments, write')
  {
    forall k | 0 <= k < |views|
      ensures Shown(line', views[k]) == Shown(line, views[k])
    {
      var v := views[k];
      assert line[..write][v.start..v.start + v.size] == line[v.start..v.start + v.size];
      assert line'[..write][v.start..v.start + v.size] == line'[v.start..v.start + v.size];
    }
  }

  method SkipSpaces(line: array<byte>, size: nat, start: nat) returns (read: nat)
    requires start <= size <= line.Length
    ensures start <= read <= size
    ensures line[read..size] == Skip(line[start..size])
  {
    read := start;
    while read < size && IsSpace(line[read])
      invariant start <= read <= size
      invariant Skip(line[read..size]) == Skip(line[start..size])
    {
      assert line[read..size][1..] == line[read + 1..size];
      read := read + 1;
    }
    assert read == size || line[read..size][0] == line[read];
  }

  function Body(quoted: bool, s: seq<byte>): Lexed {
    if quoted then Quoted(s) else Bare(s)
  }

  /** How many input bytes the next output byte takes, or none when the argument ends here. */
  function Step(quoted: bool, s: seq<byte>): nat
    requires s != []
  {
    if quoted then
      if s[0] == QUOTE then 0 else if s[0] == BACKSLASH && |s| >= 2 && Escapable(s[1]) then 2 else 1
    else
      if IsSpace(s[0]) then 0 else 1
  }

  lemma BodySteps(quoted: bool, s: seq<byte>)
    requires s != []
    ensures Step(quoted, s) <= |s|
    ensures var n := Step(quoted, s);
            Body(quoted, s) ==
              if n == 0 then Lexed([], if quoted then s[1..] else s, true)
              else Cons(s[n - 1], Body(quoted, s[n..]))
  {
  }

  /** What is left to lex, with what was already copied before it, is the whole argument. */
  ghost predicate Progress(all: Lexed, left: Lexed, done: seq<byte>) {
    all == left.(token := done + left.token)
  }

  lemma ProgressCons(all: Lexed, left: Lexed, done: seq<byte>, b: byte)
    requires Progress(all, Cons(b, left), done)
    ensures Progress(all, left, done + [b])
  {
    assert done + ([b] + left.token) == (done + [b]) + left.token;
  }

  lemma ProgressStart(all: Lexed)
    ensures Progress(all, all, [])
  {
    assert [] + all.token == all.token;
  }

  lemma ProgressEnd(all: Lexed, done: seq<byte>, rest: seq<byte>, closed: bool)
    requires Progress(all, Lexed([], rest, closed), done)
    ensures all == Lexed(done, rest, closed)
  {
    assert done + [] == done;
  }

  lemma BodyEmpty(quoted: bool)
    ensures Body(quoted, []) == Lexed([], [], !quoted)
  {
  }

  /** How many input bytes the next output byte takes, by position in the line. */
  function StepAt(quoted: bool, was: seq<byte>, size: nat, read: nat): nat
    requires read < size <= |was|
  {
    if quoted then
      if was[read] == QUOTE then 0
      else if was[read] == BACKSLASH && read + 1 < size && Escapable(was[read + 1]) then 2 else 1
    else
      if IsSpace(was[read]) then 0 else 1
  }

  /** At this read position the bytes so far are the start of the whole argument. */
  ghost predicate At(all: Lexed, quoted: bool, was: seq<byte>, size: nat, read: nat, token: seq<byte>)
    requires read <= size <= |was|
  {
    Progress(all, Body(quoted, was[read..size]), token)
  }

  lemma AtStart(quoted: bool, was: seq<byte>, size: nat, read: nat)
    requires read <= size <= |was|
    ensures At(Body(quoted, was[read..size]), quoted, was, size, read, [])
  {
    hide Body, Progress;
    ProgressStart(Body(quoted, was[read..size]));
  }

  lemma AtStep(all: Lexed, quoted: bool, was: seq<byte>, size: nat, read: nat, token: seq<byte>)
    requires read < size <= |was| && At(all, quoted, was, size, read, token)
    ensures var n := StepAt(quoted, was, size, read);
            && read + n <= size
            && (n == 0 ==> all == Lexed(token, if quoted then was[read + 1..size] else was[read..size], true))
            && (n > 0 ==> At(all, quoted, was, size, read + n, token + [was[read + n - 1]]))
  {
    hide Body, Progress, Cons, Escapable, IsSpace;
    var here := was[read..size];
    var n := StepAt(quoted, was, size, read);
    BodySteps(quoted, here);
    if n == 0 {
      assert here[1..] == was[read + 1..size];
      ProgressEnd(all, token, if quoted then was[read + 1..size] else here, true);
    } else {
      assert here[n..] == was[read + n..size];
      ProgressCons(all, Body(quoted, was[read + n..size]), token, was[read + n - 1]);
    }
  }

  lemma AtEnd(all: Lexed, quoted: bool, was: seq<byte>, size: nat, token: seq<byte>)
    requires size <= |was| && At(all, quoted, was, size, size, token)
    ensures all == Lexed(token, [], !quoted)
  {
    hide Body, Progress;
    assert was[size..size] == [];
    BodyEmpty(quoted);
    ProgressEnd(all, token, [], !quoted);
  }

  /** Copies one argument down to the write position, up to its end. */
  method CopyArgument(line: array<byte>, size: nat, start: nat, write0: nat, quoted: bool)
    returns (read: nat, write: nat, closed: bool)
    requires write0 <= start <= size <= line.Length
    modifies line
    ensures write0 <= write <= read <= size && start <= read
    ensures Lexed(line[write0..write], line[read..size], closed) == Body(quoted, old(line[start..size]))
    ensures forall k :: 0 <= k < write0 || read <= k < line.Length ==> line[k] == old(line[k])
  {
    hide Body, At, Escapable, IsSpace;
    read, write, closed := start, write0, !quoted;
    ghost var was := line[..];
    ghost var all := Body(quoted, was[start..size]);
    ghost var token: seq<byte> := [];
    AtStart(quoted, was, size, start);
    while read < size
      invariant write0 <= write <= read <= size && start <= read
      invariant forall k :: 0 <= k < write0 || read <= k < line.Length ==> line[k] == was[k]
      invariant closed == !quoted
      invariant |token| == write - write0
      invariant forall k :: write0 <= k < write ==> line[k] == token[k - write0]
      invariant At(all, quoted, was, size, read, token)
    {
      var b := line[read];
      AtStep(all, quoted, was, size, read, token);
      if quoted && b == QUOTE {
        read := read + 1;
        closed := true;
        return;
      }
      if !quoted && IsSpace(b) {
        return;
      }
      if quoted && b == BACKSLASH && read + 1 < size && Escapable(line[read + 1]) {
        read := read + 1;
        b := line[read];
      }
      line[write] := b;
      token := token + [b];
      write := write + 1;
      read := read + 1;
    }
    AtEnd(all, quoted, was, size, token);
  }

  /** Whether an argument may end where it does: quote closed, and a space or the end after it. */
  predicate Ends(l: Lexed) {
    l.closed && (l.rest == [] || IsSpace(l.rest[0]))
  }

  /** Reads one argument, with or without quotes, and checks how it ends. */
  method TakeArgument(line: array<byte>, size: nat, start: nat, write0: nat)
    returns (ok: bool, read: nat, write: nat)
    requires write0 <= start < size <= line.Length && !IsSpace(line[start])
    modifies line
    ensures write0 <= write <= read <= size && start < read
    ensures var l := Lex(old(line[start..size]));
            ok == Ends(l) && line[write0..write] == l.token && line[read..size] == l.rest
    ensures forall k :: 0 <= k < write0 || read <= k < line.Length ==> line[k] == old(line[k])
  {
    hide Quoted, Bare, IsSpace;
    ghost var here := line[start..size];
    var quoted := line[start] == QUOTE;
    var begin := if quoted then start + 1 else start;
    assert line[begin..size] == if quoted then here[1..] else here;
    var closed;
    read, write, closed := CopyArgument(line, size, begin, write0, quoted);
    ok := closed && (read == size || IsSpace(line[read]));
  }

  /** The arguments found so far, before those of what is left, are those of the whole line. */
  ghost predicate Still(all: Tokenised, left: Tokenised, words: seq<seq<byte>>) {
    all == if left.Tokens? then Tokens(words + left.arguments) else left
  }

  lemma StillStart(all: Tokenised)
    ensures Still(all, all, [])
  {
    if all.Tokens? {
      assert [] + all.arguments == all.arguments;
    }
  }

  lemma StillEnd(all: Tokenised, words: seq<seq<byte>>)
    requires Still(all, Tokens([]), words)
    ensures all == Tokens(words)
  {
    assert words + [] == words;
  }

  lemma StillStep(all: Tokenised, s: seq<byte>, capacity: nat, words: seq<seq<byte>>)
    requires Still(all, Tokenise(s, capacity), words)
    ensures var t := Skip(s);
            if t == [] then all == Tokens(words)
            else if capacity == 0 then all == Refused(BufferTooSmall)
            else if !Ends(Lex(t)) then all == Refused(InvalidArgument)
            else Still(all, Tokenise(Lex(t).rest, capacity - 1), words + [Lex(t).token])
  {
    hide Lex, Skip, IsSpace;
    var t := Skip(s);
    if t == [] {
      StillEnd(all, words);
    } else if capacity > 0 && Ends(Lex(t)) {
      var left := Tokenise(Lex(t).rest, capacity - 1);
      if left.Tokens? {
        assert words + ([Lex(t).token] + left.arguments) == (words + [Lex(t).token]) + left.arguments;
      }
    }
  }

  lemma HoldsAppend(line: seq<byte>, views: seq<View>, words: seq<seq<byte>>, v: View, write: nat)
    requires Holds(line, views, words, write)
    requires v.start + v.size <= write <= |line|
    ensures Holds(line, views + [v], words + [line[v.start..v.start + v.size]], write)
  {
    assert Shown(line, v) == line[v.start..v.start + v.size];
    hide Shown;
  }

  lemma HoldsNothing(line: seq<byte>)
    ensures Holds(line, [], [], 0)
  {
  }

  lemma NothingLeft(all: Tokenised, capacity: nat, words: seq<seq<byte>>)
    requires Still(all, Tokenise([], capacity), words)
    ensures all == Tokens(words)
  {
    hide Still;
    assert Skip([]) == [];
    assert Tokenise([], capacity) == Tokens([]);
    StillEnd(all, words);
  }

  /** Stores the view of the argument just copied; the earlier ones still show theirs. */
  method Record(line: array<byte>, arguments: array<View>, count: nat, start: nat, write: nat,
                ghost before: seq<byte>, ghost words: seq<seq<byte>>)
    requires count < arguments.Length && start <= write <= line.Length == |before|
    requires Holds(before, arguments[..count], words, start)
    requires forall k :: 0 <= k < start ==> line[k] == before[k]
    modifies arguments
    ensures Holds(line[..], arguments[..count + 1], words + [line[start..write]], write)
  {
    hide Holds;
    var view := View(start, write - start);
    assert before[..start] == line[..start] == line[..][..start];
    HoldsKept(before, line[..], arguments[..count], words, start, write);
    HoldsAppend(line[..], arguments[..count], words, view, write);
    assert line[..][start..write] == line[start..write];
    arguments[count] := view;
    assert arguments[..count + 1] == old(arguments[..count]) + [view];
  }

  /**
   * The whole tokeniser: it agrees with the pure reading of the original line, and on success
   * each view shows its argument in the compacted buffer.
   */
  method TokeniseInPlace(line: array<byte>, size: nat, arguments: array<View>, capacity: nat)
    returns (status: Status, count: nat)
    requires size <= line.Length && capacity <= arguments.Length
    modifies line, arguments
    ensures var text := old(line[..size]);
            if !Valid(text) then status == InvalidEncoding
            else match Tokenise(text, capacity)
              case Refused(why) => status == why
              case Tokens(words) =>
                && status == Success
                && count == |words| <= capacity
                && Holds(line[..], arguments[..count], words, size)
    ensures forall k :: size <= k < line.Length ==> line[k] == old(line[k])
  {
    hide Valid, Tokenise, Lex, Skip, IsSpace, Shown, Holds, Still, Ends;
    count := 0;
    status := Validate(line, size);
    if status != Success {
      return;
    }
    ghost var was := line[..];
    ghost var words: seq<seq<byte>> := [];
    ghost var all := Tokenise(was[..size], capacity);
    ghost var done := false;
    var read, write := 0, 0;
    StillStart(all);
    HoldsNothing(was);
    assert arguments[..0] == [];
    assert was[0..size] == was[..size];
    while read < size
      invariant write <= read <= size && count == |words| <= capacity
      invariant forall k :: read <= k < line.Length ==> line[k] == was[k]
      invariant Holds(line[..], arguments[..count], words, write)
      invariant !done && Still(all, Tokenise(was[read..size], capacity - count), words)
    {
      StillStep(all, was[read..size], capacity - count, words);
      assert line[read..size] == was[read..size];
      read := SkipSpaces(line, size, read);
      if read == size {
        done := true;
        break;
      }
      if count >= capacity {
        return BufferTooSmall, count;
      }
      assert line[read] == line[read..size][0];
      var start := write;
      ghost var before := line[..];
      var ok;
      ok, read, write := TakeArgument(line, size, read, start);
      if !ok {
        return InvalidArgument, count;
      }
      assert line[read..size] == was[read..size];
      Record(line, arguments, count, start, write, before, words);
      words := words + [line[start..write]];
      count := count + 1;
    }
    if !done {
      assert was[size..size] == [];
      NothingLeft(all, capacity - count, words);
    }
    HoldsKept(line[..], line[..], arguments[..count], words, write, size);
    status := Success;
  }
}
