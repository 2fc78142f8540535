/**
 The reader's serial replies and what the server makes of them: the wristband's
 address travels from its MAC over two tag blocks and a hexadecimal reply line
 to the colon form the BLE client uses.
 */
module Replies {
  import opened Wrappers

  // ---------------------------------------------------------- string helpers

  predicate IsSpace(c: char) {
    '\t' <= c <= '\r' || '\U{1C}' <= c <= '\U{1F}' || c == ' '
  }

  function StripLeft(s: string): string {
    if s != "" && IsSpace(s[0]) then StripLeft(s[1..]) else s
  }

  function StripRight(s: string): string {
    if s != "" && IsSpace(s[|s| - 1]) then StripRight(s[..|s| - 1]) else s
  }

  function Strip(s: string): string {
    StripRight(StripLeft(s))
  }

  /** Splits at every single space, as `split(" ")` does. */
  function Split(s: string): (parts: seq<string>)
    ensures |parts| >= 1
  {
    if s == "" then [""]
    else
      var rest := Split(s[1..]);
      if s[0] == ' ' then [""] + rest else [[s[0]] + rest[0]] + rest[1..]
  }

  function UpperChar(c: char): char {
    if 'a' <= c <= 'z' then c - 'a' + 'A' else c
  }

  function LowerChar(c: char): char {
    if 'A' <= c <= 'Z' then c - 'A' + 'a' else c
  }

  function Upper(s: string): (r: string)
    ensures |r| == |s|
  {
    seq(|s|, i requires 0 <= i < |s| => UpperChar(s[i]))
  }

  function Lower(s: string): string {
    seq(|s|, i requires 0 <= i < |s| => LowerChar(s[i]))
  }

  predicate Contains(s: string, part: string) {
    |part| <= |s| && (s[..|part|] == part || (s != "" && Contains(s[1..], part)))
  }

  // ----------------------------------------------------------- server: parsing

  const FAILURE_DETAILS: set<string> := {"timeout", "err", "error", "fail", "failed"}

  /** The reply counts as a successful wake. */
  predicate Accepted(reply: string) {
    var parts := Split(reply);
    parts[0] == "OK" && !(|parts| > 1 && Lower(parts[1]) in FAILURE_DETAILS)
  }

  predicate IsHex(c: char) {
    '0' <= c <= '9' || 'a' <= c <= 'f' || 'A' <= c <= 'F'
  }

  /** The twelve digits in pairs, with colons between them. */
  function WithColons(hex: string): string
    requires |hex| == 12
  {
    seq(17, i requires 0 <= i < 17 => if i % 3 == 2 then ':' else hex[2 * (i / 3) + i % 3])
  }

  /** The address carried by an accepted reply, if it has a well-formed one. */
  function ParseAddress(reply: string): (address: Option<string>)
    ensures address.Some? ==> |address.value| == 17
  {
    var parts := Split(reply);
    if |parts| > 1 && |parts[1]| >= 5 && Upper(parts[1])[..5] == "ADDR=" then
      var hex := Strip(parts[1][5..]);
      if |hex| == 12 && forall c :: c in hex ==> IsHex(c) then Some(Upper(WithColons(hex))) else None
    else None
  }

  /** The tag is not in the field yet, so the poll goes on. */
  predicate NoTag(reply: string) {
    !Accepted(reply) && Contains(Upper(reply), "NO_TAG")
  }

  // --------------------------------------------- wristband and reader: sending

  type Mac = m: seq<byte> | |m| == 6 witness [0, 0, 0, 0, 0, 0]

  function HexDigit(n: int): char
    requires 0 <= n < 16
  {
    "0123456789ABCDEF"[n]
  }

  function Hex2(b: byte): string {
    [HexDigit(b / 16), HexDigit(b % 16)]
  }

  function Hex(bytes: seq<byte>): (r: string)
    ensures |r| == 2 * |bytes|
    ensures forall i :: 0 <= i < |bytes| ==>
              r[2 * i] == HexDigit(bytes[i] / 16) && r[2 * i + 1] == HexDigit(bytes[i] % 16)
  {
    if bytes == [] then "" else Hex2(bytes[0]) + Hex(bytes[1..])
  }

  /** The wristband's own print of its MAC. */
  function ColonForm(mac: Mac): string {
    seq(17, i requires 0 <= i < 17 =>
      if i % 3 == 2 then ':' else HexDigit(if i % 3 == 0 then mac[i / 3] / 16 else mac[i / 3] % 16))
  }

  function Block4(mac: Mac): seq<byte> { mac[..4] }

  const MAGIC: seq<byte> := [0x46, 0x41]

  function Block5(mac: Mac): seq<byte> { mac[4..] + MAGIC }

  /** The reader's whole reply to a successful WAKE, from the two address blocks when both reads succeed. */
  function WakeReply(block4: seq<byte>, block5: seq<byte>, readOk: bool): string
    requires |block4| == 4 && |block5| == 4
  {
    if readOk && block5[2..] == MAGIC then "OK ADDR=" + Hex(block4 + block5[..2]) + "\n" else "OK\r\n"
  }

  /** What the server keeps of the reply. */
  function ServerAddress(block4: seq<byte>, block5: seq<byte>, readOk: bool): Option<string>
    requires |block4| == 4 && |block5| == 4
  {
    ParseAddress(Strip(WakeReply(block4, block5, readOk)))
  }

  // -------------------------------------------------------------------- lemmas

  lemma {:induction false} SplitWord(s: string)
    requires ' ' !in s
    ensures Split(s) == [s]
  {
    if s != "" {
      SplitWord(s[1..]);
      assert [s[0]] + s[1..] == s;
    }
  }

  lemma SplitOk(s: string)
    requires ' ' !in s
    ensures Split("OK " + s) == ["OK", s]
  {
    SplitWord(s);
    var line := "OK " + s;
    assert (" " + s)[1..] == s;
    assert Split(" " + s) == ["", s];
    assert ("K " + s)[1..] == " " + s && ['K'] + "" == "K";
    assert Split("K " + s) == ["K", s];
    assert line[1..] == "K " + s && ['O'] + "K" == "OK";
  }

  lemma StripLine(s: string)
    requires s != "" && !IsSpace(s[0]) && !IsSpace(s[|s| - 1])
    ensures Strip(s) == s && Strip(s + "\r") == s && Strip(s + "\n") == s && Strip(s + "\r\n") == s
  {
    forall c | c == '\r' || c == '\n' ensures StripRight(s + [c]) == s && StripLeft(s + [c]) == s + [c] {
      assert (s + [c])[..|s|] == s;
    }
    var line := s + "\r\n";
    assert line[..|line| - 1] == s + ['\r'];
    assert StripRight(line) == StripRight(s + ['\r']);
    assert StripLeft(line) == line;
  }

  lemma HexDigitIsHex(n: int)
    requires 0 <= n < 16
    ensures IsHex(HexDigit(n)) && UpperChar(HexDigit(n)) == HexDigit(n) && !IsSpace(HexDigit(n))
  {
  }

  lemma HexIsHex(bytes: seq<byte>)
    ensures forall c :: c in Hex(bytes) ==> IsHex(c) && UpperChar(c) == c && !IsSpace(c)
  {
    var h := Hex(bytes);
    forall i | 0 <= i < |h| ensures IsHex(h[i]) && UpperChar(h[i]) == h[i] && !IsSpace(h[i]) {
      var j := i / 2;
      assert i == 2 * j || i == 2 * j + 1;
      HexDigitIsHex(bytes[j] / 16);
      HexDigitIsHex(bytes[j] % 16);
    }
  }

  lemma HexColons(bytes: seq<byte>)
    requires |bytes| == 6
    ensures Upper(WithColons(Hex(bytes))) == ColonForm(bytes)
  {
    var h := Hex(bytes);
    HexIsHex(bytes);
    var w := WithColons(h);
    forall i | 0 <= i < |w| ensures UpperChar(w[i]) == w[i] {
      assert w[i] == ':' || w[i] in h;
    }
    assert Upper(w) == w;
    forall i | 0 <= i < 17 ensures w[i] == ColonForm(bytes)[i] {
      var j := i / 3;
      if i % 3 != 2 {
        assert h[2 * j] == HexDigit(bytes[j] / 16) && h[2 * j + 1] == HexDigit(bytes[j] % 16);
      }
    }
  }

  /** A reply with an address is accepted, and the server keeps the colon form. */
  lemma AddressReply(bytes: seq<byte>)
    requires |bytes| == 6
    ensures var line := "OK ADDR=" + Hex(bytes);
      Strip(line + "\n") == line && Accepted(line) && ParseAddress(line) == Some(ColonForm(bytes))
  {
    hide Strip, Hex;
    var h := Hex(bytes);
    var line := "OK ADDR=" + h;
    HexIsHex(bytes);
    assert h[|h| - 1] in h;
    StripLine(line);
    var word := "ADDR=" + h;
    assert line == "OK " + word;
    assert ' ' !in word by {
      assert IsSpace(' ');
    }
    SplitOk(word);
    assert Lower(word)[4] == '=';
    assert Upper(word)[..5] == "ADDR=";
    assert word[5..] == h;
    assert h[0] in h;
    StripLine(h);
    HexColons(bytes);
  }

  lemma PlainReply()
    ensures Strip("OK\r\n") == "OK" && Accepted("OK") && ParseAddress("OK") == None
  {
    StripLine("OK");
    assert "OK" + "\r\n" == "OK\r\n";
    SplitWord("OK");
  }

  lemma HexDigitInjective(m: int, n: int)
    requires 0 <= m < 16 && 0 <= n < 16 && HexDigit(m) == HexDigit(n)
    ensures m == n
  {
  }

  /** Different addresses print differently. */
  lemma ColonFormInjective(a: Mac, b: Mac)
    requires ColonForm(a) == ColonForm(b)
    ensures a == b
  {
    forall i | 0 <= i < 6 ensures a[i] == b[i] {
      assert ColonForm(a)[3 * i] == ColonForm(b)[3 * i];
      assert ColonForm(a)[3 * i + 1] == ColonForm(b)[3 * i + 1];
      HexDigitInjective(a[i] / 16, b[i] / 16);
      HexDigitInjective(a[i] % 16, b[i] % 16);
    }
  }

  /**
   Address handoff: the server ends up with exactly the wristband's printed
   address, and with none when the reader could not read the blocks. Over
   blocks with any former content, of which the boot may fail to write either
   (it ignores the result), it keeps an address exactly when the magic is
   there, and the right one exactly when both blocks hold what the boot wanted.
   */
  lemma AddressHandoff(mac: Mac, block4: seq<byte>, block5: seq<byte>)
    requires |block4| == 4 && |block5| == 4
    ensures ServerAddress(Block4(mac), Block5(mac), true) == Some(ColonForm(mac))
    ensures ServerAddress(block4, block5, false) == None
    ensures ServerAddress(block4, block5, true).Some? <==> block5[2..] == [0x46, 0x41]
    ensures ServerAddress(block4, block5, true) == Some(ColonForm(mac))
       <==> block4 == Block4(mac) && block5 == Block5(mac)
  {
    hide Strip, Hex, ColonForm, ParseAddress, Accepted;
    PlainReply();
    AddressReply(mac);
    assert Block4(mac) + Block5(mac)[..2] == mac;
    assert Block5(mac)[2..] == MAGIC;
    var bytes := block4 + block5[..2];
    AddressReply(bytes);
    if ColonForm(bytes) == ColonForm(mac) {
      ColonFormInjective(bytes, mac);
      assert block4 == bytes[..4] && block5[..2] == bytes[4..];
      assert block5 == block5[..2] + block5[2..];
    }
  }

  /** What a hexadecimal digit is worth. */
  function DigitValue(c: char): int {
    if '0' <= c <= '9' then c as int - '0' as int
    else if 'A' <= c <= 'F' then 10 + (c as int - 'A' as int)
    else -1
  }

  lemma DigitWorth(n: int)
    requires 0 <= n < 16
    ensures DigitValue(HexDigit(n)) == n
  {
  }

  /** The text reads back as this address: six upper-case numbers of two digits with colons between them. */
  predicate Spells(text: string, mac: Mac) {
    && |text| == 17
    && (forall i :: 0 <= i < 5 ==> text[3 * i + 2] == ':')
    && forall i :: 0 <= i < 6 ==> Worth(text, i) == mac[i] as int
  }

  /** What number `i` of the text is worth; negative if its digits are none. */
  function Worth(text: string, i: nat): int
    requires |text| == 17 && i < 6
  {
    var high, low := DigitValue(text[3 * i]), DigitValue(text[3 * i + 1]);
    if high < 0 || low < 0 then -1 else 16 * high + low
  }

  lemma DigitsAt(mac: Mac, i: nat)
    requires i < 6
    ensures ColonForm(mac)[3 * i] == HexDigit(mac[i] / 16) && ColonForm(mac)[3 * i + 1] == HexDigit(mac[i] % 16)
  {
    hide HexDigit;
    assert 3 * i % 3 == 0 && (3 * i + 1) % 3 == 1 && 3 * i / 3 == i && (3 * i + 1) / 3 == i;
  }

  lemma ColonAt(mac: Mac, i: nat)
    requires i < 5
    ensures ColonForm(mac)[3 * i + 2] == ':'
  {
    hide HexDigit;
    assert (3 * i + 2) % 3 == 2;
  }

  lemma WorthAt(mac: Mac, i: nat)
    requires i < 6
    ensures |ColonForm(mac)| == 17 && Worth(ColonForm(mac), i) == mac[i] as int
  {
    DigitWorth(mac[i] / 16);
    DigitWorth(mac[i] % 16);
    DigitsAt(mac, i);
    hide HexDigit, DigitValue;
  }

  lemma ColonFormSpells(mac: Mac)
    ensures Spells(ColonForm(mac), mac)
  {
    hide ColonForm, Worth;
    WorthAt(mac, 0);
    forall i | 0 <= i < 5 ensures ColonForm(mac)[3 * i + 2] == ':' {
      ColonAt(mac, i);
    }
    forall i | 0 <= i < 6 ensures Worth(ColonForm(mac), i) == mac[i] as int {
      WorthAt(mac, i);
    }
  }

  /** The address the server keeps of the wristband's blocks reads back as the wristband's address. */
  lemma KeptAddressSpells(mac: Mac)
    ensures ServerAddress(Block4(mac), Block5(mac), true).Some?
    ensures Spells(ServerAddress(Block4(mac), Block5(mac), true).value, mac)
  {
    hide ServerAddress, ColonForm, Spells;
    AddressHandoff(mac, Block4(mac), Block5(mac));
    ColonFormSpells(mac);
  }

  /** The reader's failure results, as it prints them for WAKE. */
  datatype WakeFailure = ReaderFailed | RfFailed | TagMissing | VerifyFailed | WriteFailed

  function FailureReply(f: WakeFailure): string {
    match f
    case ReaderFailed => "ERR NFC_READER_FAILED"
    case RfFailed => "ERR NFC_RF_FAILED"
    case TagMissing => "ERR NFC_NO_TAG"
    case VerifyFailed => "ERR NFC_WAKE_FAILED_VERIFY"
    case WriteFailed => "ERR NFC_WAKE_FAILED"
  }

  /** A contained word lends all its letters. */
  lemma {:induction false} ContainedLetters(s: string, part: string, c: char)
    requires Contains(s, part) && c in part
    ensures c in s
  {
    if s[..|part|] == part {
      assert c in s[..|part|];
    } else {
      ContainedLetters(s[1..], part, c);
    }
  }

  lemma {:induction false} ContainedAfter(before: string, part: string)
    ensures Contains(before + part, part)
  {
    if before == "" {
      assert part[..|part|] == part;
    } else {
      ContainedAfter(before[1..], part);
      assert (before + part)[1..] == before[1..] + part;
    }
  }

  lemma ErrNotAccepted(f: WakeFailure)
    ensures !Accepted(FailureReply(f))
  {
    var s := FailureReply(f);
    assert s[0] == 'E';
    assert Split(s)[0][0] == 'E';
  }

  /** Of the reader's failures exactly the missing tag keeps the server polling; none is taken for a success. */
  lemma OnlyMissingTagRetries(f: WakeFailure)
    ensures !Accepted(FailureReply(f))
    ensures NoTag(FailureReply(f)) <==> f == TagMissing
  {
    hide Contains, Accepted;
    ErrNotAccepted(f);
    var s := FailureReply(f);
    assert Upper(s) == s;
    if f == TagMissing {
      ContainedAfter("ERR NFC_", "NO_TAG");
      assert "ERR NFC_" + "NO_TAG" == s;
    } else if Contains(s, "NO_TAG") {
      assert "NO_TAG"[3] == 'T';
      ContainedLetters(s, "NO_TAG", 'T');
      assert false;
    }
  }

  /** The characters stripped: tab to carriage return, the four separators and the blank. */
  lemma SpacesAre(c: char)
    ensures IsSpace(c) <==> c as int in {9, 10, 11, 12, 13, 28, 29, 30, 31, 32}
  {
  }

  /** A wake reply OK with a second word is taken for success exactly when that is no failure detail, in any case. */
  lemma AcceptedIff(word: string)
    requires ' ' !in word
    ensures Accepted("OK " + word) <==> Lower(word) !in {"timeout", "err", "error", "fail", "failed"}
  {
    SplitOk(word);
  }

  lemma LowerOfUpper(c: char)
    ensures LowerChar(UpperChar(c)) == LowerChar(c)
    ensures 'a' <= c <= 'z' ==> UpperChar(c) as int == c as int - 32 && LowerChar(UpperChar(c)) == c
    ensures 'A' <= c <= 'Z' ==> LowerChar(c) as int == c as int + 32
    ensures !('a' <= c <= 'z') ==> UpperChar(c) == c
    ensures !('A' <= c <= 'Z') ==> LowerChar(c) == c
  {
  }

  /** The case of a failure detail does not matter: none of its spellings is taken for success. */
  lemma DetailInAnyCase(word: string, detail: string)
    requires ' ' !in word && detail in {"timeout", "err", "error", "fail", "failed"} && Upper(word) == Upper(detail)
    ensures !Accepted("OK " + word)
  {
    AcceptedIff(word);
    forall i | 0 <= i < |word| ensures LowerChar(word[i]) == detail[i] {
      assert UpperChar(word[i]) == Upper(word)[i] == Upper(detail)[i] == UpperChar(detail[i]);
      LowerOfUpper(word[i]);
      LowerOfUpper(detail[i]);
      DetailIsLower(detail, i);
    }
    assert Lower(word) == detail;
  }

  lemma DetailIsLower(detail: string, i: nat)
    requires detail in {"timeout", "err", "error", "fail", "failed"} && i < |detail|
    ensures 'a' <= detail[i] <= 'z'
  {
  }

  /** A missing tag keeps the poll going in whatever case it is reported. */
  lemma NoTagInAnyCase(reply: string)
    requires Upper(reply) == "ERR NFC_NO_TAG"
    ensures NoTag(reply)
  {
    hide Contains;
    ContainedAfter("ERR NFC_", "NO_TAG");
    assert "ERR NFC_" + "NO_TAG" == "ERR NFC_NO_TAG";
    assert UpperChar(reply[0]) == Upper(reply)[0] == 'E';
    assert reply[0] != 'O';
    FirstLetter(reply);
  }

  lemma FirstLetter(s: string)
    requires s != "" && s[0] != ' '
    ensures Split(s)[0] != "" && Split(s)[0][0] == s[0]
  {
  }

  /** A hexadecimal digit in either case, and nothing else, is one whose upper case has a value. */
  lemma HexIff(c: char)
    ensures IsHex(c) <==> 0 <= DigitValue(UpperChar(c)) < 16
  {
  }

  /**
   A second word that starts with ADDR=, in any case, carries an address exactly
   when twelve hexadecimal digits follow, in any case; it is kept in upper case.
   */
  lemma ParseIff(word: string)
    requires |word| >= 5 && Upper(word[..5]) == "ADDR=" && forall c :: c in word ==> !IsSpace(c)
    ensures var hex := word[5..];
      var digits := |hex| == 12 && forall i :: 0 <= i < 12 ==> 0 <= DigitValue(UpperChar(hex[i])) < 16;
      && (ParseAddress("OK " + word).Some? <==> digits)
      && (digits ==> forall i :: 0 <= i < 17 ==>
            ParseAddress("OK " + word).value[i] == if i % 3 == 2 then ':' else UpperChar(hex[2 * (i / 3) + i % 3]))
  {
    hide Strip, IsHex, DigitValue, UpperChar;
    var hex := word[5..];
    assert ' ' !in word by {
      assert IsSpace(' ');
    }
    SplitOk(word);
    assert Upper(word)[..5] == Upper(word[..5]);
    if hex == "" {
      StripEmpty();
    } else {
      assert hex[0] in word && hex[|hex| - 1] in word;
      StripLine(hex);
    }
    forall c ensures IsHex(c) <==> 0 <= DigitValue(UpperChar(c)) < 16 {
      HexIff(c);
    }
    ColonUpper();
  }

  lemma StripEmpty()
    ensures Strip("") == ""
  {
  }

  lemma ColonUpper()
    ensures UpperChar(':') == ':'
  {
  }

  /** Stripping takes away exactly the white space around a text. */
  lemma StripAround(left: string, s: string, right: string)
    requires s != "" && !IsSpace(s[0]) && !IsSpace(s[|s| - 1])
    requires forall c :: c in left || c in right ==> IsSpace(c)
    ensures Strip(left + s + right) == s
  {
    StripLeftOf(left, s + right);
    assert left + s + right == left + (s + right);
    StripRightOf(s, right);
  }

  lemma {:induction false} StripLeftOf(left: string, s: string)
    requires s != "" && !IsSpace(s[0]) && forall c :: c in left ==> IsSpace(c)
    ensures StripLeft(left + s) == s
  {
    hide IsSpace;
    if left == "" {
      assert left + s == s;
    } else {
      assert left[0] in left;
      assert (left + s)[1..] == left[1..] + s;
      StripLeftOf(left[1..], s);
    }
  }

  lemma {:induction false} StripRightOf(s: string, right: string)
    requires s != "" && !IsSpace(s[|s| - 1]) && forall c :: c in right ==> IsSpace(c)
    ensures StripRight(s + right) == s
    decreases |right|
  {
    hide IsSpace;
    var n := |right|;
    if n == 0 {
      assert s + right == s;
    } else {
      assert right[n - 1] in right;
      assert (s + right)[..|s| + n - 1] == s + right[..n - 1];
      StripRightOf(s, right[..n - 1]);
    }
  }
}
