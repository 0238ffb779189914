// The heartbeat message "id,name": printed by slack/asset/message.html, parsed by slack/main.go and by
// slack/chat_server.cpp.
module Heartbeat {

  const MAX_INT64 := 0x7FFF_FFFF_FFFF_FFFF
  const MIN_INT64 := -0x8000_0000_0000_0000

  /** What a handler makes of a message: an id and a name, nothing (C++ logs or catches), or an index out
      of range (Go). */
  datatype Result = Parsed(id: int, name: string) | Ignored | Panic

  // ---------------------------------------------------------------------------------------------
  // Printing
  // ---------------------------------------------------------------------------------------------

  predicate IsDigit(c: char) {
    '0' <= c <= '9'
  }

  function DigitChar(d: nat): (c: char)
    requires d < 10
    ensures IsDigit(c) && (c as int - '0' as int) == d
  {
    '0' + d as char
  }

  function Decimal(n: nat): (s: string) {
    if n < 10 then [DigitChar(n)] else Decimal(n / 10) + [DigitChar(n % 10)]
  }

  function Numeral(id: int): string {
    if id < 0 then "-" + Decimal(-id) else Decimal(id)
  }

  function Print(id: int, name: string): string {
    Numeral(id) + "," + name
  }

  // ---------------------------------------------------------------------------------------------
  // Numbers
  // ---------------------------------------------------------------------------------------------

  /** The value of a string of digits. */
  function Value(s: string): nat
    requires forall c <- s :: IsDigit(c)
  {
    if s == "" then 0
    else
      assert IsDigit(s[|s| - 1]);
      Value(s[..|s| - 1]) * 10 + (s[|s| - 1] as int - '0' as int)
  }

  function DigitsPrefix(s: string): (p: string)
    ensures p <= s && (forall c <- p :: IsDigit(c)) && (|p| < |s| ==> !IsDigit(s[|p|]))
  {
    if s == "" || !IsDigit(s[0]) then "" else [s[0]] + DigitsPrefix(s[1..])
  }

  function Clamp(v: int): int {
    if v > MAX_INT64 then MAX_INT64 else if v < MIN_INT64 then MIN_INT64 else v
  }

  function Unsigned(s: string): string {
    if s != "" && (s[0] == '+' || s[0] == '-') then s[1..] else s
  }

  function Signed(s: string, magnitude: int): int {
    if s != "" && s[0] == '-' then -magnitude else magnitude
  }

  /** strconv.Atoi with its error ignored: 0 for a syntax error, the nearest int64 for a range error. */
  function Atoi(s: string): int {
    var digits := Unsigned(s);
    if digits == "" || exists c <- digits :: !IsDigit(c) then 0 else Clamp(Signed(s, Value(digits)))
  }

  predicate IsSpace(c: char) {
    c == ' ' || c == '\t' || c == '\n' || c == '\r' || c as int == 11 || c as int == 12
  }

  function SkipSpaces(s: string): string {
    if s != "" && IsSpace(s[0]) then SkipSpaces(s[1..]) else s
  }

  /** std::stol: the longest number at the front, Ignored standing for the exception. */
  function Stol(s: string, name: string): Result {
    var t := SkipSpaces(s);
    var digits := DigitsPrefix(Unsigned(t));
    if digits == "" then Ignored
    else
      var v := Signed(t, Value(digits));
      if Clamp(v) != v then Ignored else Parsed(v, name)
  }

  // ---------------------------------------------------------------------------------------------
  // The two parsers
  // ---------------------------------------------------------------------------------------------

  function BeforeComma(s: string): (p: string)
    ensures p <= s && ',' !in p && (|p| < |s| ==> s[|p|] == ',')
    ensures ',' in s ==> |p| < |s|
  {
    if s == "" || s[0] == ',' then "" else [s[0]] + BeforeComma(s[1..])
  }

  function Split(s: string): seq<string>
    decreases |s|
  {
    var first := BeforeComma(s);
    if |first| == |s| then [s] else [first] + Split(s[|first| + 1..])
  }

  function GoParse(msg: string): Result {
    var parts := Split(msg);
    if |parts| < 2 then Panic else Parsed(Atoi(parts[0]), parts[1])
  }

  predicate IsBlank(c: char) {
    c == ' ' || c == '\n' || c == '\r' || c == '\t'
  }

  function TrimLeft(s: string): string {
    if s != "" && IsBlank(s[0]) then TrimLeft(s[1..]) else s
  }

  function TrimRight(s: string): (t: string)
    ensures t <= s
  {
    if s != "" && IsBlank(s[|s| - 1]) then TrimRight(s[..|s| - 1]) else s
  }

  function CppParse(msg: string): Result {
    var s := TrimRight(TrimLeft(msg));
    if ',' !in s then Ignored
    else
      var uid := BeforeComma(s);
      Stol(uid, s[|uid| + 1..])
  }

  // ---------------------------------------------------------------------------------------------
  // Decimal numbers round-trip
  // ---------------------------------------------------------------------------------------------

  lemma {:induction false} DecimalMeaning(n: nat)
    ensures Decimal(n) != "" && (forall c <- Decimal(n) :: IsDigit(c)) && Value(Decimal(n)) == n
  {
    if n < 10 {
      assert Decimal(n)[..0] == "";
    } else {
      DecimalMeaning(n / 10);
      var s := Decimal(n);
      assert s[..|s| - 1] == Decimal(n / 10);
    }
  }

  lemma {:induction false} AllDigits(s: string)
    requires forall c <- s :: IsDigit(c)
    ensures DigitsPrefix(s) == s
  {
    if s != "" {
      AllDigits(s[1..]);
    }
  }

  predicate IsInt64(v: int) {
    MIN_INT64 <= v <= MAX_INT64
  }

  lemma {:induction false} NumeralMeaning(id: int)
    ensures var s, digits := Numeral(id), Decimal(if id < 0 then -id else id);
            && s != "" && !IsSpace(s[0]) && Unsigned(s) == digits
            && digits != "" && (forall c <- digits :: IsDigit(c)) && Signed(s, Value(digits)) == id
  {
    var digits := Decimal(if id < 0 then -id else id);
    DecimalMeaning(if id < 0 then -id else id);
    assert IsDigit(digits[0]);
    assert ("-" + digits)[1..] == digits;
  }

  lemma {:induction false} NumbersRoundTrip(id: int, name: string)
    ensures Atoi(Numeral(id)) == if id > MAX_INT64 then MAX_INT64 else if id < MIN_INT64 then MIN_INT64 else id
    ensures Stol(Numeral(id), name) == if IsInt64(id) then Parsed(id, name) else Ignored
  {
    NumeralMeaning(id);
    AllDigits(Unsigned(Numeral(id)));
  }

  // ---------------------------------------------------------------------------------------------
  // Messages
  // ---------------------------------------------------------------------------------------------

  lemma {:induction false} BeforeCommaOfConcat(a: string, b: string)
    requires ',' !in a
    ensures BeforeComma(a + "," + b) == a
  {
    var s := a + "," + b;
    if a != "" {
      assert s[1..] == a[1..] + "," + b;
      BeforeCommaOfConcat(a[1..], b);
    }
  }

  lemma {:induction false} NumeralsHaveNoComma(id: int)
    ensures ',' !in Numeral(id)
  {
    DecimalMeaning(if id < 0 then -id else id);
  }

  lemma {:induction false} TrimRightStops(a: string, b: string)
    requires a != "" && !IsBlank(a[|a| - 1])
    ensures TrimRight(a + b) == a + TrimRight(b)
    decreases |b|
  {
    var s := a + b;
    if b == "" {
      assert s == a;
    } else if IsBlank(b[|b| - 1]) {
      assert s[..|s| - 1] == a + b[..|b| - 1];
      TrimRightStops(a, b[..|b| - 1]);
    }
  }

  /** What comes before the first comma is read as the id, by Atoi or by stol; the name is what follows, for Go up
      to its next comma and for C++ without trailing blanks. */
  lemma {:induction false} MessageIsRead(uid: string, name: string)
    requires ',' !in uid
    ensures GoParse(uid + "," + name) == Parsed(Atoi(uid), BeforeComma(name))
    ensures (uid != "" ==> !IsBlank(uid[0])) ==> CppParse(uid + "," + name) == Stol(uid, TrimRight(name))
  {
    var msg, s := uid + "," + name, uid + "," + TrimRight(name);
    BeforeCommaOfConcat(uid, name);
    assert msg[|uid| + 1..] == name;
    assert Split(msg) == [uid] + Split(name);
    assert Split(name) != [] && Split(name)[0] == BeforeComma(name);
    if uid != "" ==> !IsBlank(uid[0]) {
      assert TrimLeft(msg) == msg;
      TrimRightStops(uid + ",", name);
      BeforeCommaOfConcat(uid, TrimRight(name));
      assert s[|uid|] == ',' && s[|uid| + 1..] == TrimRight(name);
    }
  }

  /** Go reads the id, or the nearest 64-bit integer, and of the name what comes before its first comma. */
  lemma {:induction false} GoReads(id: int, name: string)
    ensures GoParse(Print(id, name))
         == Parsed(if id > MAX_INT64 then MAX_INT64 else if id < MIN_INT64 then MIN_INT64 else id, BeforeComma(name))
  {
    NumeralsHaveNoComma(id);
    MessageIsRead(Numeral(id), name);
    NumbersRoundTrip(id, name);
  }

  /** C++ reads an id that is a 64-bit integer and of the name all but its trailing blanks; any other id makes it
      ignore the message. */
  lemma {:induction false} CppReads(id: int, name: string)
    ensures CppParse(Print(id, name)) == if IsInt64(id) then Parsed(id, TrimRight(name)) else Ignored
  {
    NumeralMeaning(id);
    NumeralsHaveNoComma(id);
    MessageIsRead(Numeral(id), name);
    NumbersRoundTrip(id, TrimRight(name));
  }

  predicate EndsInBlank(name: string) {
    name != "" && name[|name| - 1] in " \n\r\t"
  }

  lemma {:induction false} TrimRightMeaning(name: string)
    ensures TrimRight(name) == name <==> !EndsInBlank(name)
    ensures ',' in name ==> ',' in TrimRight(name)
    decreases |name|
  {
    if EndsInBlank(name) {
      TrimRightMeaning(name[..|name| - 1]);
      if ',' in name {
        var k :| 0 <= k < |name| && name[k] == ',';
        assert k < |name| - 1;
        assert name[..|name| - 1][k] == ',';
      }
    }
  }

  /** Go gets back the pair that was printed exactly for 64-bit ids and names without a comma. */
  lemma {:induction false} GoRoundTripExactly(id: int, name: string)
    ensures GoParse(Print(id, name)) == Parsed(id, name) <==> IsInt64(id) && ',' !in name
  {
    GoReads(id, name);
  }

  /** C++ gets back the pair that was printed exactly for 64-bit ids and names that do not end in a blank. */
  lemma {:induction false} CppRoundTripExactly(id: int, name: string)
    ensures CppParse(Print(id, name)) == Parsed(id, name) <==> IsInt64(id) && !EndsInBlank(name)
  {
    CppReads(id, name);
    TrimRightMeaning(name);
  }

  /** The two servers read the same pair exactly when both read the one that was printed. */
  lemma {:induction false} ParsersAgreeExactly(id: int, name: string)
    ensures GoParse(Print(id, name)) == CppParse(Print(id, name))
        <==> IsInt64(id) && ',' !in name && !EndsInBlank(name)
  {
    GoReads(id, name);
    CppReads(id, name);
    TrimRightMeaning(name);
  }

  // ---------------------------------------------------------------------------------------------
  // Messages that the page does not mean to send
  // ---------------------------------------------------------------------------------------------

  lemma {:induction false} TrimmedHasComma(s: string)
    ensures ',' in TrimLeft(s) <==> ',' in s
    ensures ',' in TrimRight(s) <==> ',' in s
    decreases |s|
  {
    if s != "" && IsBlank(s[0]) {
      assert s == [s[0]] + s[1..];
      TrimmedHasComma(s[1..]);
    }
    if s != "" && IsBlank(s[|s| - 1]) {
      assert s == s[..|s| - 1] + [s[|s| - 1]];
      TrimmedHasComma(s[..|s| - 1]);
    }
  }

  /** Without a comma Go's handler indexes out of range, and C++ ignores the message; with one Go never does. */
  lemma {:induction false} WithoutCommaExactly(msg: string)
    ensures GoParse(msg) == Panic <==> ',' !in msg
    ensures ',' !in msg ==> CppParse(msg) == Ignored
  {
    TrimmedHasComma(msg);
    TrimmedHasComma(TrimLeft(msg));
    if ',' in msg {
      var uid := BeforeComma(msg);
      var rest := msg[|uid| + 1..];
      assert msg == uid + "," + rest;
      MessageIsRead(uid, rest);
    }
  }

  lemma {:induction false} DigitsThenLetters(digits: string, letters: string, name: string)
    requires (forall c <- digits :: IsDigit(c)) && letters != "" && 'a' <= letters[0] <= 'z'
    ensures Atoi(digits + letters) == 0
    ensures Stol(digits + letters, name)
         == if digits != "" && IsInt64(Value(digits)) then Parsed(Value(digits), name) else Ignored
  {
    var word := digits + letters;
    assert digits != "" ==> IsDigit(digits[0]) && word[0] == digits[0];
    assert word[|digits|] == letters[0] && !IsDigit(letters[0]);
    assert Unsigned(word) == word && SkipSpaces(word) == word;
    FrontNumber(digits, letters);
  }

  lemma {:induction false} PlusNumber(digits: string, name: string)
    requires digits != "" && (forall d <- digits :: IsDigit(d)) && IsInt64(Value(digits))
    ensures Atoi("+" + digits) == Value(digits) && Stol("+" + digits, name) == Parsed(Value(digits), name)
  {
    assert ("+" + digits)[1..] == digits;
    AllDigits(digits);
  }

  lemma {:induction false} SpaceNumber(digits: string, c: char, name: string)
    requires digits != "" && (forall d <- digits :: IsDigit(d)) && IsInt64(Value(digits)) && c as int in {11, 12}
    ensures Atoi([c] + digits) == 0 && Stol([c] + digits, name) == Parsed(Value(digits), name)
  {
    var word := [c] + digits;
    assert word[0] == c && word[1..] == digits;
    assert IsDigit(digits[0]) && SkipSpaces(digits) == digits;
    assert SkipSpaces(word) == SkipSpaces(digits);
    assert Unsigned(word) == word && !IsDigit(word[0]);
    AllDigits(digits);
  }

  /** Ids that are no plain numbers. Letters after the digits, or only letters as in the text of a missing id: Go
      takes 0, C++ the number in front and nothing when there is none. Both take a plus sign; a vertical tab or form
      feed in front only C++ does. */
  lemma {:induction false} OddIds(n: nat, letters: string, c: char, name: string)
    requires letters != "" && 'a' <= letters[0] <= 'z' && c as int in {11, 12} && IsInt64(n)
    ensures Atoi(Decimal(n) + letters) == 0 && Stol(Decimal(n) + letters, name) == Parsed(n, name)
    ensures Atoi(letters) == 0 && Stol(letters, name) == Ignored
    ensures Atoi("+" + Decimal(n)) == n && Stol("+" + Decimal(n), name) == Parsed(n, name)
    ensures Atoi([c] + Decimal(n)) == 0 && Stol([c] + Decimal(n), name) == Parsed(n, name)
  {
    DecimalMeaning(n);
    DigitsThenLetters(Decimal(n), letters, name);
    DigitsThenLetters("", letters, name);
    assert "" + letters == letters;
    PlusNumber(Decimal(n), name);
    SpaceNumber(Decimal(n), c, name);
  }

  lemma {:induction false} FrontNumber(digits: string, letters: string)
    requires (forall c <- digits :: IsDigit(c)) && letters != "" && !IsDigit(letters[0])
    ensures DigitsPrefix(digits + letters) == digits
  {
    if digits == "" {
      assert digits + letters == letters;
    } else {
      assert (digits + letters)[1..] == digits[1..] + letters;
      FrontNumber(digits[1..], letters);
    }
  }

  /** Blanks around the message make no difference to C++. */
  lemma {:induction false} BlanksAreTrimmed(msg: string, c: char)
    requires c in " \n\r\t"
    ensures CppParse([c] + msg) == CppParse(msg) == CppParse(msg + [c])
  {
    assert ([c] + msg)[1..] == msg;
    TrimSnoc(msg, c);
  }

  lemma {:induction false} TrimSnoc(msg: string, c: char)
    requires IsBlank(c)
    ensures TrimRight(TrimLeft(msg + [c])) == TrimRight(TrimLeft(msg))
  {
    var s := msg + [c];
    if msg == "" {
      assert s[1..] == "";
    } else if IsBlank(msg[0]) {
      assert s[1..] == msg[1..] + [c];
      TrimSnoc(msg[1..], c);
    } else {
      assert s[..|s| - 1] == msg;
    }
  }
}
