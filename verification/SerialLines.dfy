/**
 Line framing on the two serial links: the server sends `line + "\n"`, the
 boards assemble lines from whatever bytes are there in a pass of `loop()`;
 in the other direction the server collects a reply from partial reads.
 */
module SerialLines {
  import opened Wrappers
  import opened Replies

  /** Which board assembles: the UNO ends a line on CR or LF, the ESP32 skips CR. */
  datatype Board = Uno | Esp32 {
    function Limit(): (n: nat)
      ensures 32 <= n
    {
      if Uno? then 32 else 64
    }
  }

  /** Pending characters, and the commands handed over so far. */
  datatype Assembly = Assembly(buf: string, handled: seq<string>)

  const FRESH := Assembly("", [])

  function Flush(a: Assembly): Assembly {
    Assembly("", if a.buf == "" then a.handled else a.handled + [a.buf])
  }

  function Put(board: Board, a: Assembly, c: char): Assembly {
    if c == '\n' || (c == '\r' && board.Uno?) then Flush(a)
    else if c == '\r' || |a.buf| >= board.Limit() then a
    else a.(buf := a.buf + [c])
  }

  function Feed(board: Board, a: Assembly, stream: string): Assembly
    decreases |stream|
  {
    if stream == "" then a else Feed(board, Put(board, a, stream[0]), stream[1..])
  }

  class LineAssembler {
    const board: Board
    var buf: string
    ghost var handled: seq<string>

    constructor (board: Board)
      ensures this.board == board && Assembly(buf, handled) == FRESH
    {
      this.board, buf, handled := board, "", [];
    }

    /** One pass of `loop()` over the bytes that are available; `commands` go to the handler in order. */
    method Drain(available: string) returns (commands: seq<string>)
      modifies this
      ensures Assembly(buf, handled) == Feed(board, old(Assembly(buf, handled)), available)
      ensures handled == old(handled) + commands
    {
      commands := [];
      ghost var outcome := Feed(board, Assembly(buf, handled), available);
      var i := 0;
      while i < |available|
        invariant 0 <= i <= |available|
        invariant Feed(board, Assembly(buf, handled), available[i..]) == outcome
        invariant handled == old(handled) + commands
      {
        var c := available[i];
        assert available[i..][1..] == available[i + 1..];
        i := i + 1;
        if c == '\n' || (c == '\r' && board == Uno) {
          if |buf| > 0 {
            commands := commands + [buf];
            handled := handled + [buf];
          }
          buf := "";
        } else if c != '\r' && |buf| < board.Limit() {
          buf := buf + [c];
        }
      }
    }
  }

  // ------------------------------------------------------- splitting the stream

  lemma {:induction false} FeedSplits(board: Board, a: Assembly, s: string, t: string)
    ensures Feed(board, a, s + t) == Feed(board, Feed(board, a, s), t)
    decreases |s|
  {
    if s == "" {
      assert s + t == t;
    } else {
      assert (s + t)[1..] == s[1..] + t;
      FeedSplits(board, Put(board, a, s[0]), s[1..], t);
    }
  }

  function Concat(pieces: seq<string>): string {
    if pieces == [] then "" else pieces[0] + Concat(pieces[1..])
  }

  function FeedPasses(board: Board, a: Assembly, passes: seq<string>): Assembly
    decreases |passes|
  {
    if passes == [] then a else FeedPasses(board, Feed(board, a, passes[0]), passes[1..])
  }

  /** How the bytes fall into passes of `loop()` makes no difference. */
  lemma {:induction false} PassesDoNotMatter(board: Board, a: Assembly, passes: seq<string>)
    ensures FeedPasses(board, a, passes) == Feed(board, a, Concat(passes))
    decreases |passes|
  {
    if passes != [] {
      FeedSplits(board, a, passes[0], Concat(passes[1..]));
      PassesDoNotMatter(board, Feed(board, a, passes[0]), passes[1..]);
    }
  }

  // ------------------------------------------------------------- host to board

  predicate IsAscii(c: char) {
    c < '\U{80}'
  }

  /** Encoding drops every character outside ASCII. */
  function Ascii(line: string): string {
    if line == "" then "" else (if IsAscii(line[0]) then [line[0]] else "") + Ascii(line[1..])
  }

  function Framed(line: string): string {
    Ascii(line) + "\n"
  }

  function Wire(lines: seq<string>): string {
    if lines == [] then "" else Framed(lines[0]) + Wire(lines[1..])
  }

  predicate TerminatorFree(s: string) {
    '\n' !in s && '\r' !in s
  }

  function Prefix(s: string, n: nat): string {
    s[..Min(n, |s|)]
  }

  function Command(board: Board, line: string): seq<string> {
    if Ascii(line) == "" then [] else [Prefix(Ascii(line), board.Limit())]
  }

  /** What a board is meant to receive: each line cut to the board's limit, empty ones left out. */
  function Received(board: Board, lines: seq<string>): seq<string> {
    if lines == [] then []
    else Command(board, lines[0]) + Received(board, lines[1..])
  }

  lemma {:induction false} Fill(board: Board, a: Assembly, s: string)
    requires TerminatorFree(s) && |a.buf| <= board.Limit()
    ensures Feed(board, a, s) == a.(buf := Prefix(a.buf + s, board.Limit()))
    decreases |s|
  {
    if s == "" {
      assert a.buf + s == a.buf;
    } else {
      var a' := Put(board, a, s[0]);
      assert s[0] in s;
      Fill(board, a', s[1..]);
      if |a.buf| < board.Limit() {
        assert a'.buf + s[1..] == a.buf + s;
      }
    }
  }

  lemma FeedOne(board: Board, a: Assembly, c: char)
    ensures Feed(board, a, [c]) == Put(board, a, c)
  {
  }

  /** A stretch without terminator and the terminator behind it. */
  lemma FeedLine(board: Board, a: Assembly, s: string)
    requires TerminatorFree(s) && a.buf == ""
    ensures Feed(board, a, s + "\n") == Flush(a.(buf := Prefix(s, board.Limit())))
  {
    hide Feed, TerminatorFree;
    FeedSplits(board, a, s, "\n");
    Fill(board, a, s);
    FeedOne(board, Feed(board, a, s), '\n');
    assert "" + s == s;
  }

  /**
   Framing: from between two lines the boards hand over exactly the server's
   lines, in order, each cut to the limit and the empty ones left out, and are
   between two lines again; a line that is too long does not touch the others.
   */
  lemma {:induction false} LinesArrive(board: Board, a: Assembly, lines: seq<string>)
    requires a.buf == ""
    requires forall line :: line in lines ==> TerminatorFree(Ascii(line))
    ensures Feed(board, a, Wire(lines)) == Assembly("", a.handled + Received(board, lines))
    decreases |lines|
  {
    hide Feed, TerminatorFree, Command, Framed;
    if lines == [] {
      FeedNothing(board, a);
    } else {
      assert lines[0] in lines;
      FeedSplits(board, a, Framed(lines[0]), Wire(lines[1..]));
      LineArrives(board, a, lines[0]);
      LinesArrive(board, Assembly("", a.handled + Command(board, lines[0])), lines[1..]);
    }
  }

  lemma LineArrives(board: Board, a: Assembly, line: string)
    requires a.buf == "" && TerminatorFree(Ascii(line))
    ensures Feed(board, a, Framed(line)) == Assembly("", a.handled + Command(board, line))
  {
    hide Feed, TerminatorFree, Ascii, Prefix;
    FeedLine(board, a, Ascii(line));
    PrefixEmptyIff(Ascii(line), board.Limit());
  }

  lemma PrefixEmptyIff(s: string, n: nat)
    requires n > 0
    ensures Prefix(s, n) == "" <==> s == ""
  {
  }

  lemma FeedNothing(board: Board, a: Assembly)
    ensures Feed(board, a, "") == a
  {
  }

  /** Whatever came before, one LF puts the board between two lines. */
  lemma Resynchronises(board: Board, a: Assembly, noise: string)
    ensures Feed(board, a, noise + "\n").buf == ""
  {
    FeedSplits(board, a, noise, "\n");
  }

  // ---------------------------------------------------------- exactly which lines

  predicate Clean(board: Board, s: string) {
    |s| <= (if board.Uno? then 32 else 64) && TerminatorFree(s) && forall c :: c in s ==> c as int < 128
  }

  lemma {:induction false} HandledAreClean(board: Board, a: Assembly, stream: string)
    requires Clean(board, a.buf) && forall c :: c in stream ==> IsAscii(c)
    requires forall s :: s in a.handled ==> s != "" && Clean(board, s)
    ensures forall s :: s in Feed(board, a, stream).handled ==> s != "" && Clean(board, s)
    decreases |stream|
  {
    if stream != "" {
      assert stream[0] in stream;
      HandledAreClean(board, Put(board, a, stream[0]), stream[1..]);
    }
  }

  lemma {:induction false} AsciiChars(line: string)
    ensures forall c :: c in Ascii(line) ==> IsAscii(c)
    ensures (forall c :: c in line ==> IsAscii(c)) ==> Ascii(line) == line
  {
    if line != "" {
      AsciiChars(line[1..]);
      assert [line[0]] + line[1..] == line;
    }
  }

  /** A board gets exactly the line that was sent, and nothing else, if and only if the line is clean and not empty. */
  lemma ExactLineIff(board: Board, line: string)
    ensures Feed(board, FRESH, Framed(line)).handled == [line] <==> line != "" && Clean(board, line)
  {
    hide Feed;
    AsciiChars(line);
    HandledAreClean(board, FRESH, Framed(line));
    if Feed(board, FRESH, Framed(line)).handled == [line] {
      assert line in [line];
    }
    if line != "" && Clean(board, line) {
      assert Ascii(line) == line;
      FeedLine(board, FRESH, line);
      assert Prefix(line, board.Limit()) == line;
    }
  }

  // ----------------------------------------------------------- the two boards

  /** Every CR has its LF right behind it. */
  predicate PairedCr(s: string) {
    forall i :: 0 <= i < |s| && s[i] == '\r' ==> i + 1 < |s| && LfAt(s, i + 1)
  }

  predicate LfAt(s: string, i: nat)
    requires i < |s|
  {
    s[i] == '\n'
  }

  /** No stretch without terminator is longer than `n`, the first one not longer than `first`. */
  predicate Fits(s: string, first: int, n: nat)
    decreases |s|
  {
    if s == "" then true
    else if s[0] == '\n' || s[0] == '\r' then Fits(s[1..], n, n)
    else first >= 1 && Fits(s[1..], first - 1, n)
  }

  lemma {:induction false} BoardsInStep(a: Assembly, s: string)
    requires PairedCr(s) && Fits(s, 32 - |a.buf|, 32) && |a.buf| <= 32
    ensures Feed(Uno, a, s) == Feed(Esp32, a, s)
    decreases |s|
  {
    if s != "" {
      if s[0] == '\r' {
        assert LfAt(s, 1) && s[1..][0] == '\n';
        assert s[1..][1..] == s[2..];
        forall i | 0 <= i < |s[2..]| && s[2..][i] == '\r' ensures i + 1 < |s[2..]| && LfAt(s[2..], i + 1) {
          assert s[i + 2] == '\r';
          assert LfAt(s, i + 3);
        }
        BoardsInStep(Flush(a), s[2..]);
        assert Feed(Uno, a, s) == Feed(Uno, Flush(a), s[2..]);
        assert Feed(Esp32, a, s) == Feed(Esp32, Flush(a), s[2..]);
      } else {
        forall i | 0 <= i < |s[1..]| && s[1..][i] == '\r' ensures i + 1 < |s[1..]| && LfAt(s[1..], i + 1) {
          assert s[i + 1] == '\r';
          assert LfAt(s, i + 2);
        }
        assert Put(Uno, a, s[0]) == Put(Esp32, a, s[0]);
        BoardsInStep(Put(Uno, a, s[0]), s[1..]);
      }
    }
  }

  /** The boards are interchangeable on streams whose lines fit 32 characters and whose CRs are all followed by LF. */
  lemma BoardsAgree(s: string)
    requires PairedCr(s) && Fits(s, 32, 32)
    ensures Feed(Uno, FRESH, s) == Feed(Esp32, FRESH, s)
  {
    BoardsInStep(FRESH, s);
  }

  /** A CR inside a line is where they part: two commands on the UNO, one on the ESP32. */
  lemma LoneCrDiffers(x: string, y: string)
    requires TerminatorFree(x) && TerminatorFree(y) && x != "" && y != "" && |x| + |y| <= 32
    ensures Feed(Uno, FRESH, x + "\r" + y + "\n").handled == [x, y]
    ensures Feed(Esp32, FRESH, x + "\r" + y + "\n").handled == [x + y]
  {
    LoneCr(Uno, x, y);
    LoneCr(Esp32, x, y);
  }

  lemma LoneCr(board: Board, x: string, y: string)
    requires TerminatorFree(x) && TerminatorFree(y) && x != "" && y != "" && |x| + |y| <= 32
    ensures Feed(board, FRESH, x + "\r" + y + "\n").handled == if board.Uno? then [x, y] else [x + y]
  {
    hide Feed, TerminatorFree, Put;
    var cr := x + "\r";
    FeedSplits(board, FRESH, x, "\r");
    Fill(board, FRESH, x);
    assert "" + x == x;
    assert Feed(board, FRESH, x) == Assembly(x, []);
    FeedOne(board, Assembly(x, []), '\r');
    var a := if board.Uno? then Assembly("", [x]) else Assembly(x, []);
    CrStep(board, Assembly(x, []));
    assert Feed(board, FRESH, cr) == a;
    FeedSplits(board, FRESH, cr, y);
    Fill(board, a, y);
    var whole := if board.Uno? then y else x + y;
    assert a.buf + y == whole;
    var b := a.(buf := whole);
    assert Feed(board, FRESH, cr + y) == b;
    FeedSplits(board, FRESH, cr + y, "\n");
    FeedOne(board, b, '\n');
    LfStep(board, b);
  }

  lemma CrStep(board: Board, a: Assembly)
    ensures Put(board, a, '\r') == if board.Uno? then Flush(a) else a
  {
  }

  lemma LfStep(board: Board, a: Assembly)
    ensures Put(board, a, '\n') == Flush(a)
  {
  }

  // ------------------------------------------------------------- board to server

  predicate EndsLine(s: string) {
    s != "" && (s[|s| - 1] == '\n' || s[|s| - 1] == '\r')
  }

  /** The reply collected from the reads that start before the deadline. */
  function Collect(buf: string, pieces: seq<string>): string
    decreases |pieces|
  {
    if pieces == [] then buf
    else if pieces[0] == "" then Collect(buf, pieces[1..])
    else if EndsLine(buf + pieces[0]) then buf + pieces[0]
    else Collect(buf + pieces[0], pieces[1..])
  }

  /** Collecting stops behind the first read after which the text ends in LF or CR, and goes on behind any other. */
  lemma CollectStops(buf: string, piece: string, rest: seq<string>)
    requires piece != ""
    ensures Collect(buf, [piece] + rest) ==
            if piece[|piece| - 1] in {'\n', '\r'} then buf + piece else Collect(buf + piece, rest)
  {
    assert ([piece] + rest)[1..] == rest;
    assert (buf + piece)[|buf + piece| - 1] == piece[|piece| - 1];
  }

  method ReadLine(pieces: seq<string>) returns (buf: string)
    ensures buf == Collect("", pieces)
  {
    buf := "";
    var i := 0;
    while i < |pieces|
      invariant 0 <= i <= |pieces|
      invariant Collect(buf, pieces[i..]) == Collect("", pieces)
    {
      var chunk := pieces[i];
      assert pieces[i..][1..] == pieces[i + 1..];
      i := i + 1;
      if chunk != "" {
        buf := buf + chunk;
        if EndsLine(buf) {
          return;
        }
      }
    }
  }

  /** Collecting stops at a point of the byte stream: behind the first read that ends in CR or LF, or at its end. */
  lemma {:induction false} CollectIsPrefix(buf: string, pieces: seq<string>)
    ensures Collect(buf, pieces) <= buf + Concat(pieces)
    ensures Collect(buf, pieces) == buf + Concat(pieces) || EndsLine(Collect(buf, pieces))
    decreases |pieces|
  {
    hide EndsLine;
    if pieces == [] {
      assert buf + "" == buf;
    } else {
      var first, rest := pieces[0], Concat(pieces[1..]);
      Reassociate(buf, first, rest);
      if first == "" {
        assert buf + first == buf;
        CollectIsPrefix(buf, pieces[1..]);
      } else if !EndsLine(buf + first) {
        CollectIsPrefix(buf + first, pieces[1..]);
      }
    }
  }

  lemma Reassociate(a: string, b: string, c: string)
    ensures (a + b) + c == a + (b + c)
    ensures a + b <= a + (b + c)
  {
  }

  /** However a complete reply is cut into reads, the server gets its text. */
  lemma ReplyArrives(body: string, ending: string, pieces: seq<string>)
    requires TerminatorFree(body) && body != "" && !IsSpace(body[0]) && !IsSpace(body[|body| - 1])
    requires ending == "\n" || ending == "\r\n"
    requires Concat(pieces) == body + ending
    ensures Strip(Collect("", pieces)) == body
  {
    hide Strip, Collect;
    CollectIsPrefix("", pieces);
    var got := Collect("", pieces);
    assert "" + Concat(pieces) == body + ending;
    StripLine(body);
    NoEarlyEnd(body, got);
    PrefixCases(body, ending, got);
    assert EndsLine(got) || got == body + ending;
  }

  lemma PrefixCases(body: string, ending: string, got: string)
    requires got <= body + ending && (ending == "\n" || ending == "\r\n")
    ensures got <= body || got == body + ending || (got == body + "\r" && ending == "\r\n")
  {
    var full := body + ending;
    assert got == full[..|got|];
    if |got| <= |body| {
      assert full[..|got|] == body[..|got|];
    } else if |got| == |body| + 1 {
      assert full[..|body| + 1] == body + ending[..1];
      assert ending[..1] == [ending[0]];
    }
  }

  lemma NoEarlyEnd(body: string, got: string)
    requires TerminatorFree(body)
    ensures got <= body ==> !EndsLine(got)
  {
    if got <= body && got != "" {
      assert got[|got| - 1] == body[|got| - 1];
    }
  }

  /** The first `n` digits of an address reply, as a reply of its own, carry no address before all twelve are there. */
  lemma TruncatedWord(bytes: seq<byte>, n: nat)
    requires |bytes| == 6 && n <= 12
    ensures n < 12 ==> ParseAddress("OK ADDR=" + Hex(bytes)[..n]) == None
  {
    hide Strip, Hex;
    var h := Hex(bytes)[..n];
    HexIsHex(bytes);
    forall c | c in h ensures IsHex(c) && !IsSpace(c) {
      assert c in Hex(bytes);
    }
    var word := "ADDR=" + h;
    assert "OK ADDR=" + h == "OK " + word;
    assert ' ' !in word by {
      assert IsSpace(' ');
    }
    SplitOk(word);
    assert word[5..] == h;
    if h != "" {
      assert h[0] in h && h[|h| - 1] in h;
      StripLine(h);
    } else {
      StripNothing();
    }
  }

  lemma StripNothing()
    ensures Strip("") == ""
  {
  }

  /** So does the part of an address reply that has no digit yet. */
  lemma TruncatedHead(n: nat)
    requires n < 8
    ensures ParseAddress(Strip("OK ADDR="[..n])) == None
  {
    hide Strip, Split;
    var head := "OK ADDR="[..n];
    if n == 0 {
      StripNothing();
      SplitWord("");
    } else if n <= 3 {
      assert "OK ADDR="[..1] == "O" && "OK ADDR="[..2] == "OK" && "OK ADDR="[..3] == "OK ";
      StripLine("O");
      StripLine("OK");
      StripOkSpace();
      SplitWord("O");
      SplitWord("OK");
    } else {
      var word := "ADDR="[..n - 3];
      assert head == "OK " + word;
      assert head[0] == 'O' && word[|word| - 1] in {'A', 'D', 'R'};
      StripLine(head);
      assert ' ' !in word;
      SplitOk(word);
    }
  }

  lemma StripOkSpace()
    ensures Strip("OK ") == "OK"
  {
    StripLine("OK");
    assert "OK "[..2] == "OK";
    assert StripLeft("OK ") == "OK ";
    assert StripRight("OK ") == StripRight("OK");
  }

  /**
   Whatever part of an address reply is in before the deadline, and in
   whatever reads, the server keeps that very address or none; it keeps it
   when at least the whole text is in.
   */
  lemma AddressIsNeverWrong(bytes: seq<byte>, pieces: seq<string>)
    requires |bytes| == 6 && Concat(pieces) <= "OK ADDR=" + Hex(bytes) + "\n"
    ensures var kept := ParseAddress(Strip(Collect("", pieces)));
      kept == if |Concat(pieces)| >= 20 then Some(ColonForm(bytes)) else None
  {
    hide Strip, Hex, Collect, ParseAddress, EndsLine, Accepted, ColonForm;
    var line := "OK ADDR=" + Hex(bytes);
    CollectIsPrefix("", pieces);
    var all, got := Concat(pieces), Collect("", pieces);
    assert "" + all == all;
    LineIsTerminatorFree(bytes);
    NoEarlyEnd(line, got);
    PrefixCases(line, "\n", got);
    PrefixCases(line, "\n", all);
    assert got == all;
    AddressPrefix(bytes, got);
  }

  lemma LineIsTerminatorFree(bytes: seq<byte>)
    requires |bytes| == 6
    ensures TerminatorFree("OK ADDR=" + Hex(bytes))
  {
    hide Hex;
    HexIsHex(bytes);
    assert IsSpace('\r') && IsSpace('\n');
  }

  lemma AddressPrefix(bytes: seq<byte>, got: string)
    requires |bytes| == 6 && got <= "OK ADDR=" + Hex(bytes) + "\n"
    ensures ParseAddress(Strip(got)) == if |got| >= 20 then Some(ColonForm(bytes)) else None
  {
    hide Strip, Hex, ParseAddress, Accepted, ColonForm;
    var h := Hex(bytes);
    var line := "OK ADDR=" + h;
    assert |line| == 20 && got == (line + "\n")[..|got|];
    AddressReply(bytes);
    HexIsHex(bytes);
    assert h[11] in h;
    StripLine(line);
    if |got| == 21 {
      assert got == line + "\n";
    } else if |got| >= 8 {
      var n := |got| - 8;
      assert got == "OK ADDR=" + h[..n];
      assert n > 0 ==> h[n - 1] in h;
      StripLine(got);
      TruncatedWord(bytes, n);
      assert n == 12 ==> got == line;
    } else {
      TruncatedHead(|got|);
      assert got == "OK ADDR="[..|got|];
    }
  }
}
