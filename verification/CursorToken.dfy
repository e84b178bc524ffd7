/** The opaque token a listing hands out, and what reading it back accepts. */
module CursorToken {
  import opened Prelude

  // ---------- Six bits at a time ----------

  predicate IsByte(c: char) {
    c as int < 256
  }

  predicate IsLatin1(s: string) {
    forall i :: 0 <= i < |s| ==> IsByte(s[i])
  }

  type Digit = n: nat | n < 64 witness 0

  function First(a: char): Digit
    requires IsByte(a)
  {
    a as int / 4
  }

  function Second(a: char, b: char): Digit
    requires IsByte(a) && IsByte(b)
  {
    a as int % 4 * 16 + b as int / 16
  }

  function Third(b: char, c: char): Digit
    requires IsByte(b) && IsByte(c)
  {
    b as int % 16 * 4 + c as int / 64
  }

  function Fourth(c: char): Digit
    requires IsByte(c)
  {
    c as int % 64
  }

  const NUL: char := 0 as char

  /** Three bytes make four digits; what is left over makes two or three. */
  function Digits(v: string): seq<Digit>
    requires IsLatin1(v)
  {
    if |v| == 0 then []
    else if |v| == 1 then [First(v[0]), Second(v[0], NUL)]
    else if |v| == 2 then [First(v[0]), Second(v[0], v[1]), Third(v[1], NUL)]
    else [First(v[0]), Second(v[0], v[1]), Third(v[1], v[2]), Fourth(v[2])] + Digits(v[3..])
  }

  function High(a: Digit, b: Digit): (r: char)
    ensures IsByte(r)
  {
    (a as int * 4 + b as int / 16) as char
  }

  function Middle(b: Digit, c: Digit): (r: char)
    ensures IsByte(r)
  {
    (b as int % 16 * 16 + c as int / 4) as char
  }

  function Low(c: Digit, d: Digit): (r: char)
    ensures IsByte(r)
  {
    (c as int % 4 * 64 + d as int) as char
  }

  /** Left-over bits are discarded; a single left-over digit says nothing. */
  function Undigits(d: seq<Digit>): (v: string)
    requires |d| % 4 != 1
    ensures IsLatin1(v)
  {
    if |d| == 0 then ""
    else if |d| == 2 then [High(d[0], d[1])]
    else if |d| == 3 then [High(d[0], d[1]), Middle(d[1], d[2])]
    else [High(d[0], d[1]), Middle(d[1], d[2]), Low(d[2], d[3])] + Undigits(d[4..])
  }

  lemma {:induction false} BytesReadBack(a: char, b: char, c: char)
    requires IsByte(a) && IsByte(b) && IsByte(c)
    ensures High(First(a), Second(a, b)) == a
    ensures Middle(Second(a, b), Third(b, c)) == b
    ensures Low(Third(b, c), Fourth(c)) == c
  {
  }

  lemma {:induction false} DigitsReadBack(a: Digit, b: Digit, c: Digit, d: Digit)
    ensures First(High(a, b)) == a
    ensures Second(High(a, b), Middle(b, c)) == b
    ensures Third(Middle(b, c), Low(c, d)) == c
    ensures Fourth(Low(c, d)) == d
    ensures Second(High(a, b), NUL) == b / 16 * 16
    ensures Third(Middle(b, c), NUL) == c / 4 * 4
  {
  }

  lemma {:induction false} DigitsRoundTrip(v: string)
    requires IsLatin1(v)
    ensures |Digits(v)| % 4 != 1 && Undigits(Digits(v)) == v
    decreases |v|
  {
    if |v| >= 3 {
      DigitsRoundTrip(v[3..]);
      BytesReadBack(v[0], v[1], v[2]);
      FourThen([First(v[0]), Second(v[0], v[1]), Third(v[1], v[2]), Fourth(v[2])], Digits(v[3..]));
      assert v == [v[0], v[1], v[2]] + v[3..];
    } else if |v| == 2 {
      BytesReadBack(v[0], v[1], NUL);
    } else if |v| == 1 {
      BytesReadBack(v[0], NUL, NUL);
    }
  }

  /** One group of four digits, and the rest. */
  lemma {:induction false} FourThen(q: seq<Digit>, rest: seq<Digit>)
    requires |q| == 4 && |rest| % 4 != 1
    ensures |q + rest| % 4 != 1
    ensures Undigits(q + rest) == [High(q[0], q[1]), Middle(q[1], q[2]), Low(q[2], q[3])] + Undigits(rest)
  {
    assert (q + rest)[4..] == rest;
  }

  lemma {:induction false} ThreeThen(a: char, b: char, c: char, rest: string)
    requires IsByte(a) && IsByte(b) && IsByte(c) && IsLatin1(rest)
    ensures IsLatin1([a, b, c] + rest)
    ensures Digits([a, b, c] + rest) == [First(a), Second(a, b), Third(b, c), Fourth(c)] + Digits(rest)
  {
    assert ([a, b, c] + rest)[3..] == rest;
  }

  /** No bits are discarded when `d` is read. */
  predicate NoSpareBits(d: seq<Digit>) {
    (|d| % 4 == 2 ==> d[|d| - 1] % 16 == 0) && (|d| % 4 == 3 ==> d[|d| - 1] % 4 == 0)
  }

  lemma {:induction false} UndigitsRoundTripIff(d: seq<Digit>)
    requires |d| % 4 != 1
    ensures Digits(Undigits(d)) == d <==> NoSpareBits(d)
    decreases |d|
  {
    if |d| >= 4 {
      UndigitsRoundTripIff(d[4..]);
      GroupRoundTrip(d[0], d[1], d[2], d[3], d[4..]);
      SameRest(d, Digits(Undigits(d[4..])));
      SpareBitsAtEnd(d);
    } else if |d| == 2 {
      DigitsReadBack(d[0], d[1], 0, 0);
    } else if |d| == 3 {
      DigitsReadBack(d[0], d[1], d[2], 0);
    }
  }

  lemma {:induction false} GroupRoundTrip(a: Digit, b: Digit, c: Digit, e: Digit, rest: seq<Digit>)
    requires |rest| % 4 != 1
    ensures |[a, b, c, e] + rest| % 4 != 1
    ensures Digits(Undigits([a, b, c, e] + rest)) == [a, b, c, e] + Digits(Undigits(rest))
  {
    FourThen([a, b, c, e], rest);
    DigitsReadBack(a, b, c, e);
    ThreeThen(High(a, b), Middle(b, c), Low(c, e), Undigits(rest));
  }

  lemma {:induction false} SpareBitsAtEnd(d: seq<Digit>)
    requires |d| >= 4
    ensures d == [d[0], d[1], d[2], d[3]] + d[4..]
    ensures NoSpareBits(d) <==> NoSpareBits(d[4..])
  {
    var rest := d[4..];
    assert rest != [] ==> rest[|rest| - 1] == d[|d| - 1];
  }

  lemma {:induction false} SameRest(d: seq<Digit>, rest: seq<Digit>)
    requires |d| >= 4
    ensures [d[0], d[1], d[2], d[3]] + rest == d <==> rest == d[4..]
  {
    assert d == [d[0], d[1], d[2], d[3]] + d[4..];
    assert ([d[0], d[1], d[2], d[3]] + rest)[4..] == rest;
  }

  // ---------- The two alphabets ----------

  function Letter(n: Digit): char {
    if n < 26 then ('A' as int + n) as char
    else if n < 52 then ('a' as int + n - 26) as char
    else if n < 62 then ('0' as int + n - 52) as char
    else if n == 62 then '+' else '/'
  }

  function DigitOf(c: char): Option<Digit> {
    if 'A' <= c <= 'Z' then Some(c as int - 'A' as int)
    else if 'a' <= c <= 'z' then Some(c as int - 'a' as int + 26)
    else if '0' <= c <= '9' then Some(c as int - '0' as int + 52)
    else if c == '+' then Some(62)
    else if c == '/' then Some(63)
    else None
  }

  function Letters(d: seq<Digit>): string {
    seq(|d|, i requires 0 <= i < |d| => Letter(d[i]))
  }

  function DigitsOf(s: string): Option<seq<Digit>> {
    if s == "" then Some([])
    else if DigitOf(s[0]).None? || DigitsOf(s[1..]).None? then None
    else Some([DigitOf(s[0]).value] + DigitsOf(s[1..]).value)
  }

  lemma {:induction false} LetterRoundTrip(n: Digit)
    ensures DigitOf(Letter(n)) == Some(n)
  {
    if n < 26 {
      assert 'A' <= Letter(n) <= 'Z';
    } else if n < 52 {
      assert 'a' <= Letter(n) <= 'z';
    } else if n < 62 {
      assert '0' <= Letter(n) <= '9';
    }
  }

  lemma {:induction false} LettersRoundTrip(d: seq<Digit>)
    ensures DigitsOf(Letters(d)) == Some(d)
  {
    if d != [] {
      assert Letters(d)[1..] == Letters(d[1..]);
      LettersRoundTrip(d[1..]);
      LetterRoundTrip(d[0]);
      assert Letters(d)[0] == Letter(d[0]);
      assert [d[0]] + d[1..] == d;
    }
  }

  lemma {:induction false} DigitsOfRoundTrip(s: string)
    requires DigitsOf(s).Some?
    ensures Letters(DigitsOf(s).value) == s
  {
    if s != "" {
      DigitsOfRoundTrip(s[1..]);
      assert Letters(DigitsOf(s).value)[1..] == Letters(DigitsOf(s[1..]).value);
    }
  }

  function ReplaceAll(s: string, from: char, to: char): string {
    seq(|s|, i requires 0 <= i < |s| => if s[i] == from then to else s[i])
  }

  // ---------- btoa and atob ----------

  function Padding(n: nat): string {
    if n % 3 == 1 then "==" else if n % 3 == 2 then "=" else ""
  }

  /** Throws, here `None`, on a character past Latin-1. */
  function Btoa(v: string): Option<string> {
    if IsLatin1(v) then Some(Letters(Digits(v)) + Padding(|v|)) else None
  }

  predicate IsAsciiWhitespace(c: char) {
    c == ' ' || c == '\t' || c == '\n' || c == '\r' || c as int == 12
  }

  function WithoutWhitespace(s: string): string {
    if s == "" then ""
    else if IsAsciiWhitespace(s[0]) then WithoutWhitespace(s[1..])
    else [s[0]] + WithoutWhitespace(s[1..])
  }

  function WithoutPadding(s: string): string {
    if |s| % 4 != 0 then s
    else if |s| >= 2 && s[|s| - 2..] == "==" then s[..|s| - 2]
    else if |s| >= 1 && s[|s| - 1] == '=' then s[..|s| - 1]
    else s
  }

  /** The forgiving decoder of the web platform. */
  function Atob(s: string): Option<string> {
    var t := WithoutPadding(WithoutWhitespace(s));
    if |t| % 4 == 1 || DigitsOf(t).None? then None
    else
      DigitsOfLength(t);
      Some(Undigits(DigitsOf(t).value))
  }

  lemma {:induction false} DigitsOfLength(t: string)
    requires DigitsOf(t).Some?
    ensures |DigitsOf(t).value| == |t|
  {
    if t != "" {
      DigitsOfLength(t[1..]);
    }
  }

  // ---------- The url alphabet ----------

  function StripTrailing(s: string): string {
    if s != "" && s[|s| - 1] == '=' then StripTrailing(s[..|s| - 1]) else s
  }

  function ToBase64Url(v: string): Option<string> {
    if Btoa(v).None? then None
    else Some(StripTrailing(ReplaceAll(ReplaceAll(Btoa(v).value, '+', '-'), '/', '_')))
  }

  function FromBase64Url(s: string): Option<string> {
    Atob(ReplaceAll(ReplaceAll(s, '-', '+'), '_', '/'))
  }

  /** The alphabet of section 5 of RFC 4648, which needs no escaping in a query string. */
  predicate IsUrlLetter(c: char) {
    'A' <= c <= 'Z' || 'a' <= c <= 'z' || '0' <= c <= '9' || c == '-' || c == '_'
  }

  function UrlLetters(d: seq<Digit>): string {
    ReplaceAll(ReplaceAll(Letters(d), '+', '-'), '/', '_')
  }

  lemma {:induction false} UrlLettersAreUrl(d: seq<Digit>)
    ensures |UrlLetters(d)| == |d|
    ensures forall i :: 0 <= i < |d| ==> IsUrlLetter(UrlLetters(d)[i])
    ensures ReplaceAll(ReplaceAll(UrlLetters(d), '-', '+'), '_', '/') == Letters(d)
  {
    var s := ReplaceAll(ReplaceAll(UrlLetters(d), '-', '+'), '_', '/');
    forall i | 0 <= i < |d|
      ensures s[i] == Letters(d)[i]
    {
      assert Letters(d)[i] != '-' && Letters(d)[i] != '_';
    }
  }

  lemma {:induction false} StripsOne(u: string)
    ensures StripTrailing(u + "=") == StripTrailing(u)
  {
    assert (u + "=")[..|u + "="| - 1] == u;
  }

  lemma {:induction false} StripsNothing(d: seq<Digit>)
    ensures StripTrailing(UrlLetters(d)) == UrlLetters(d)
  {
    UrlLettersAreUrl(d);
    var u := UrlLetters(d);
    assert d != [] ==> IsUrlLetter(u[|u| - 1]);
  }

  lemma {:induction false} PaddingIsKept(d: seq<Digit>, n: nat)
    ensures ReplaceAll(ReplaceAll(Letters(d) + Padding(n), '+', '-'), '/', '_') == UrlLetters(d) + Padding(n)
  {
  }

  lemma {:induction false} StripsPadding(d: seq<Digit>, n: nat)
    ensures StripTrailing(ReplaceAll(ReplaceAll(Letters(d) + Padding(n), '+', '-'), '/', '_')) == UrlLetters(d)
  {
    var u := UrlLetters(d);
    PaddingIsKept(d, n);
    StripsNothing(d);
    StripsOne(u);
    StripsOne(u + "=");
    assert u + "=" + "=" == u + "==";
    assert u + "" == u;
  }

  /** What is printed: the url alphabet, and no padding. */
  lemma {:induction false} TokenIsUrlSafe(v: string)
    requires IsLatin1(v)
    ensures ToBase64Url(v) == Some(UrlLetters(Digits(v)))
    ensures forall i :: 0 <= i < |ToBase64Url(v).value| ==> IsUrlLetter(ToBase64Url(v).value[i])
  {
    StripsPadding(Digits(v), |v|);
    UrlLettersAreUrl(Digits(v));
  }

  lemma {:induction false} NothingToSkip(d: seq<Digit>)
    ensures WithoutWhitespace(Letters(d)) == Letters(d)
  {
    if d != [] {
      assert Letters(d)[1..] == Letters(d[1..]);
      NothingToSkip(d[1..]);
    }
  }

  lemma {:induction false} ReadsLetters(d: seq<Digit>)
    ensures FromBase64Url(UrlLetters(d)) == if |d| % 4 == 1 then None else Some(Undigits(d))
  {
    UrlLettersAreUrl(d);
    NothingToSkip(d);
    LettersRoundTrip(d);
    var s := Letters(d);
    assert d != [] ==> s[|s| - 1] == Letter(d[|d| - 1]) != '=';
    assert |s| >= 2 ==> s[|s| - 2..][1] != '=';
    assert WithoutPadding(s) == s;
  }

  /** Reading back what was printed gives exactly what was printed from. */
  lemma {:induction false} Base64UrlRoundTrip(v: string)
    requires IsLatin1(v)
    ensures ToBase64Url(v).Some? && FromBase64Url(ToBase64Url(v).value) == Some(v)
  {
    TokenIsUrlSafe(v);
    ReadsLetters(Digits(v));
    DigitsRoundTrip(v);
  }

  /**
   * A token over the url alphabet is the one token printed for what it reads as exactly when
   * its spare bits are zero; otherwise it is read all the same.
   */
  lemma {:induction false} TokenIsCanonicalIff(d: seq<Digit>)
    requires |d| % 4 != 1
    ensures FromBase64Url(UrlLetters(d)).Some?
    ensures ToBase64Url(FromBase64Url(UrlLetters(d)).value) == Some(UrlLetters(d)) <==> NoSpareBits(d)
  {
    ReadsLetters(d);
    var v := Undigits(d);
    TokenIsUrlSafe(v);
    UndigitsRoundTripIff(d);
    if UrlLetters(Digits(v)) == UrlLetters(d) {
      UrlLettersAreUrl(d);
      UrlLettersAreUrl(Digits(v));
      LettersRoundTrip(d);
      LettersRoundTrip(Digits(v));
    }
  }

  // ---------- The cursor ----------

  datatype Cursor = Cursor(at: int, id: string)

  /** The date printer and reader of the language, which is not modelled further. */
  datatype Dates = Dates(show: int -> string, read: string -> Option<int>)

  predicate IsHex(c: char) {
    '0' <= c <= '9' || 'a' <= c <= 'f' || 'A' <= c <= 'F'
  }

  predicate IsUuid(s: string) {
    |s| == 36 &&
    forall i :: 0 <= i < 36 ==> if i == 8 || i == 13 || i == 18 || i == 23 then s[i] == '-' else IsHex(s[i])
  }

  function LastIndexOf(s: string, c: char): Option<nat> {
    if s == "" then None
    else if s[|s| - 1] == c then Some(|s| - 1)
    else LastIndexOf(s[..|s| - 1], c)
  }

  lemma {:induction false} LastIndexOfTail(a: string, b: string, c: char)
    requires forall i :: 0 <= i < |b| ==> b[i] != c
    ensures LastIndexOf(a + [c] + b, c) == Some(|a|)
    decreases |b|
  {
    var s := a + [c] + b;
    if b == "" {
      assert s == a + [c];
    } else {
      var b0 := b[..|b| - 1];
      assert s[..|s| - 1] == a + [c] + b0;
      LastIndexOfTail(a, b0, c);
    }
  }

  lemma {:induction false} LastIndexOfIs(s: string, c: char)
    ensures LastIndexOf(s, c).Some? ==> LastIndexOf(s, c).value < |s| && s[LastIndexOf(s, c).value] == c
    decreases |s|
  {
    if s != "" && s[|s| - 1] != c {
      LastIndexOfIs(s[..|s| - 1], c);
    }
  }

  function EncodeCursor(dates: Dates, c: Cursor): Option<string> {
    ToBase64Url(dates.show(c.at) + "|" + c.id)
  }

  function DecodeCursor(dates: Dates, token: string): Option<Cursor> {
    var decoded := FromBase64Url(token);
    if decoded.None? then None
    else
      var separator := LastIndexOf(decoded.value, '|');
      if separator.None? then None
      else
        LastIndexOfIs(decoded.value, '|');
        var at := dates.read(decoded.value[..separator.value]);
        var id := decoded.value[separator.value + 1..];
        if at.None? || !IsUuid(id) then None else Some(Cursor(at.value, id))
  }

  /** A cursor reads back as itself, whatever the date printer prints in Latin-1 and reads back. */
  lemma {:induction false} CursorRoundTrip(dates: Dates, c: Cursor)
    requires IsUuid(c.id) && IsLatin1(dates.show(c.at)) && dates.read(dates.show(c.at)) == Some(c.at)
    ensures EncodeCursor(dates, c).Some?
    ensures DecodeCursor(dates, EncodeCursor(dates, c).value) == Some(c)
  {
    var printed := dates.show(c.at);
    var s := printed + "|" + c.id;
    forall i | 0 <= i < |c.id|
      ensures IsByte(c.id[i]) && c.id[i] != '|'
    {
      assert c.id[i] == '-' || IsHex(c.id[i]);
    }
    Base64UrlRoundTrip(s);
    LastIndexOfTail(printed, c.id, '|');
    assert s[..|printed|] == printed && s[|printed| + 1..] == c.id;
  }

  // ---------- Tokens that were never issued ----------

  /** The digit a letter of either alphabet stands for. */
  function UrlDigitOf(c: char): Option<Digit> {
    DigitOf(if c == '-' then '+' else if c == '_' then '/' else c)
  }

  predicate AllUrlLetters(token: string) {
    forall i :: 0 <= i < |token| ==> IsUrlLetter(token[i])
  }

  function UrlDigits(token: string): seq<Digit>
    requires AllUrlLetters(token)
  {
    seq(|token|, i requires 0 <= i < |token| => UrlDigitOf(token[i]).value)
  }

  lemma {:induction false} UrlLetterReadsBack(c: char)
    requires IsUrlLetter(c)
    ensures UrlDigitOf(c).Some?
    ensures UrlLetters([UrlDigitOf(c).value]) == [c]
  {
    var n := UrlDigitOf(c).value;
    assert Letter(n) == if c == '-' then '+' else if c == '_' then '/' else c;
  }

  lemma {:induction false} UrlDigitsRoundTrip(token: string)
    requires AllUrlLetters(token)
    ensures UrlLetters(UrlDigits(token)) == token
  {
    var s := UrlLetters(UrlDigits(token));
    forall i | 0 <= i < |token|
      ensures s[i] == token[i]
    {
      UrlLetterReadsBack(token[i]);
      assert s[i] == UrlLetters([UrlDigits(token)[i]])[0];
    }
  }

  lemma {:induction false} SameUrlLetters(d: seq<Digit>, e: seq<Digit>)
    requires UrlLetters(d) == UrlLetters(e)
    ensures d == e
  {
    UrlLettersAreUrl(d);
    UrlLettersAreUrl(e);
    LettersRoundTrip(d);
    LettersRoundTrip(e);
  }

  /** The text of a token before its last bar. */
  function DateText(token: string): Option<string> {
    var decoded := FromBase64Url(token);
    if decoded.None? || LastIndexOf(decoded.value, '|').None? then None
    else
      LastIndexOfIs(decoded.value, '|');
      Some(decoded.value[..LastIndexOf(decoded.value, '|').value])
  }

  /** The text of a token after its last bar. */
  function IdText(token: string): Option<string> {
    var decoded := FromBase64Url(token);
    if decoded.None? || LastIndexOf(decoded.value, '|').None? then None
    else
      LastIndexOfIs(decoded.value, '|');
      Some(decoded.value[LastIndexOf(decoded.value, '|').value + 1..])
  }

  lemma {:induction false} ReadInParts(dates: Dates, token: string, c: Cursor)
    requires DecodeCursor(dates, token) == Some(c)
    ensures DateText(token).Some? && dates.read(DateText(token).value) == Some(c.at) && IsUuid(c.id)
    ensures FromBase64Url(token) == Some(DateText(token).value + "|" + c.id) && IdText(token) == Some(c.id)
  {
    var s := FromBase64Url(token).value;
    LastIndexOfIs(s, '|');
    var k := LastIndexOf(s, '|').value;
    assert s == s[..k] + [s[k]] + s[k + 1..];
  }

  lemma {:induction false} SameHead(a: string, b: string, tail: string)
    requires a + "|" + tail == b + "|" + tail
    ensures a == b
  {
    assert (a + "|" + tail)[..|a|] == a && (b + "|" + tail)[..|b|] == b;
  }

  /**
   * Of the tokens that read as a cursor, whatever they look like, exactly the one is printed for
   * it that uses nothing but the url alphabet, leaves its spare bits zero, and spells the date
   * as the printer would.
   */
  lemma {:induction false} AcceptedTokenIsIssuedIff(dates: Dates, token: string, c: Cursor)
    requires DecodeCursor(dates, token) == Some(c)
    ensures EncodeCursor(dates, c) == Some(token) <==>
            AllUrlLetters(token) && NoSpareBits(UrlDigits(token)) && DateText(token) == Some(dates.show(c.at))
  {
    ReadInParts(dates, token, c);
    var v := dates.show(c.at) + "|" + c.id;
    if EncodeCursor(dates, c) == Some(token) {
      IssuedForm(v, token);
      SameHead(DateText(token).value, dates.show(c.at), c.id);
    }
    if AllUrlLetters(token) && NoSpareBits(UrlDigits(token)) && DateText(token) == Some(dates.show(c.at)) {
      UrlDigitsRoundTrip(token);
      ReadsLetters(UrlDigits(token));
      TokenIsCanonicalIff(UrlDigits(token));
    }
  }

  lemma {:induction false} IssuedForm(v: string, token: string)
    requires ToBase64Url(v) == Some(token)
    ensures AllUrlLetters(token) && NoSpareBits(UrlDigits(token)) && FromBase64Url(token) == Some(v)
  {
    TokenIsUrlSafe(v);
    UrlDigitsRoundTrip(token);
    SameUrlLetters(UrlDigits(token), Digits(v));
    DigitsRoundTrip(v);
    UndigitsRoundTripIff(Digits(v));
    Base64UrlRoundTrip(v);
  }

  lemma {:induction false} LastBitsAreDiscarded(d: seq<Digit>, e: Digit)
    requires |d| % 4 == 2 && d[|d| - 1] / 16 == e / 16
    ensures Undigits(d[..|d| - 1] + [e]) == Undigits(d)
    decreases |d|
  {
    var f := d[..|d| - 1] + [e];
    if |d| > 2 {
      LastBitsAreDiscarded(d[4..], e);
      assert f[4..] == d[4..][..|d| - 5] + [e];
      assert f[0] == d[0] && f[1] == d[1] && f[2] == d[2] && f[3] == d[3];
    }
  }

  lemma {:induction false} DigitsCount(v: string)
    requires IsLatin1(v) && |v| % 3 == 1
    ensures |Digits(v)| % 4 == 2
    decreases |v|
  {
    if |v| > 3 {
      DigitsCount(v[3..]);
    }
  }

  lemma {:induction false} CursorIsLatin1(dates: Dates, c: Cursor)
    requires IsUuid(c.id) && IsLatin1(dates.show(c.at))
    ensures IsLatin1(dates.show(c.at) + "|" + c.id)
  {
    forall i | 0 <= i < |c.id|
      ensures IsByte(c.id[i])
    {
      assert c.id[i] == '-' || IsHex(c.id[i]);
    }
  }

  /** The digits of the token issued for a place. */
  function IssuedDigits(dates: Dates, c: Cursor): seq<Digit>
    requires IsUuid(c.id) && IsLatin1(dates.show(c.at))
  {
    CursorIsLatin1(dates, c);
    Digits(dates.show(c.at) + "|" + c.id)
  }

  lemma {:induction false} AlteredReadsTheSame(d: seq<Digit>, e: Digit)
    requires |d| % 4 == 2 && d[|d| - 1] / 16 == e / 16
    ensures FromBase64Url(UrlLetters(d[..|d| - 1] + [e])) == FromBase64Url(UrlLetters(d))
  {
    LastBitsAreDiscarded(d, e);
    ReadsLetters(d);
    ReadsLetters(d[..|d| - 1] + [e]);
  }

  lemma {:induction false} AlteredDiffers(d: seq<Digit>, e: Digit)
    requires d != [] && d[|d| - 1] != e
    ensures UrlLetters(d[..|d| - 1] + [e]) != UrlLetters(d)
  {
    var f := d[..|d| - 1] + [e];
    if UrlLetters(f) == UrlLetters(d) {
      SameUrlLetters(f, d);
    }
  }

  /**
   * A date prints in 24 characters, so an issued token leaves four spare bits in its last
   * letter: each of the fifteen other letters with the same two leading bits reads as the same
   * place, and none of those tokens is issued for it.
   */
  lemma {:induction false} AlteredTokenIsAccepted(dates: Dates, c: Cursor, e: Digit)
    requires IsUuid(c.id) && IsLatin1(dates.show(c.at)) && dates.read(dates.show(c.at)) == Some(c.at)
    requires |dates.show(c.at)| == 24
    ensures var d := IssuedDigits(dates, c);
            && |d| % 4 == 2 && EncodeCursor(dates, c) == Some(UrlLetters(d))
            && (d[|d| - 1] / 16 == e / 16 && d[|d| - 1] != e ==>
                  var altered := UrlLetters(d[..|d| - 1] + [e]);
                  DecodeCursor(dates, altered) == Some(c) && EncodeCursor(dates, c) != Some(altered))
  {
    var d := IssuedDigits(dates, c);
    CursorRoundTrip(dates, c);
    IssuedToken(dates, c);
    if d[|d| - 1] / 16 == e / 16 && d[|d| - 1] != e {
      AlteredReadsTheSame(d, e);
      AlteredDiffers(d, e);
      SameReadingSamePlace(dates, UrlLetters(d), UrlLetters(d[..|d| - 1] + [e]));
    }
  }

  lemma {:induction false} IssuedToken(dates: Dates, c: Cursor)
    requires IsUuid(c.id) && IsLatin1(dates.show(c.at)) && |dates.show(c.at)| == 24
    ensures |IssuedDigits(dates, c)| % 4 == 2 && EncodeCursor(dates, c) == Some(UrlLetters(IssuedDigits(dates, c)))
  {
    var v := dates.show(c.at) + "|" + c.id;
    CursorIsLatin1(dates, c);
    TokenIsUrlSafe(v);
    DigitsCount(v);
  }

  lemma {:induction false} SameReadingSamePlace(dates: Dates, a: string, b: string)
    requires FromBase64Url(a) == FromBase64Url(b)
    ensures DecodeCursor(dates, a) == DecodeCursor(dates, b)
  {
  }

  /** So does any token whose date is spelled in another way that the reader takes. */
  lemma {:induction false} OtherSpellingIsAccepted(dates: Dates, text: string, c: Cursor)
    requires IsLatin1(text) && dates.read(text) == Some(c.at) && IsUuid(c.id) && text != dates.show(c.at)
    ensures ToBase64Url(text + "|" + c.id).Some?
    ensures var token := ToBase64Url(text + "|" + c.id).value;
            DecodeCursor(dates, token) == Some(c) && EncodeCursor(dates, c) != Some(token)
  {
    var respelled := Dates((n: int) => text, dates.read);
    CursorRoundTrip(respelled, c);
    var token := EncodeCursor(respelled, c).value;
    AcceptedTokenIsIssuedIff(dates, token, c);
    ReadInParts(dates, token, c);
    CursorIsLatin1(respelled, c);
    Base64UrlRoundTrip(text + "|" + c.id);
    if DateText(token) == Some(dates.show(c.at)) {
      SameHead(text, dates.show(c.at), c.id);
    }
  }

  lemma {:induction false} LastDigit(v: string)
    requires IsLatin1(v) && |v| % 3 == 1
    ensures |Digits(v)| > 0 && Digits(v)[|Digits(v)| - 1] == Second(v[|v| - 1], NUL)
    decreases |v|
  {
    if |v| > 3 {
      LastDigit(v[3..]);
    }
  }

  lemma {:induction false} LastLetter(d: seq<Digit>, e: Digit)
    requires d != [] && 48 <= e <= 49
    ensures UrlLetters(d[..|d| - 1] + [e]) == UrlLetters(d[..|d| - 1]) + (if e == 48 then "w" else "x")
  {
  }

  lemma {:induction false} LastDigitOfSeven(dates: Dates, c: Cursor)
    requires IsUuid(c.id) && IsLatin1(dates.show(c.at)) && |dates.show(c.at)| == 24 && c.id[35] == '7'
    ensures |IssuedDigits(dates, c)| > 0 && IssuedDigits(dates, c)[|IssuedDigits(dates, c)| - 1] == 48
  {
    CursorIsLatin1(dates, c);
    LastDigit(dates.show(c.at) + "|" + c.id);
  }

  lemma {:induction false} SevenEndsInW(dates: Dates, c: Cursor)
    requires IsUuid(c.id) && IsLatin1(dates.show(c.at)) && dates.read(dates.show(c.at)) == Some(c.at)
    requires |dates.show(c.at)| == 24 && c.id[35] == '7'
    ensures exists t :: EncodeCursor(dates, c) == Some(t + "w") && DecodeCursor(dates, t + "x") == Some(c)
  {
    var d := IssuedDigits(dates, c);
    LastDigitOfSeven(dates, c);
    AlteredTokenIsAccepted(dates, c, 49);
    var head := d[..|d| - 1];
    assert d == head + [48];
    LastLetter(d, 48);
    LastLetter(d, 49);
  }

  const SOME_ID: string := seq(36, i => if i == 8 || i == 13 || i == 18 || i == 23 then '-' else '7')
  const SOME_DATE: string := "1970-01-01T00:00:00.500Z"

  /** Half past the epoch, in the one spelling that this reader takes. */
  const SOME_DATES: Dates := Dates((n: int) => if n == 500 then SOME_DATE else "", (s: string) => if s == SOME_DATE then Some(500) else None)

  lemma {:induction false} SomeDateIsLatin1()
    ensures IsLatin1(SOME_DATES.show(500)) && |SOME_DATES.show(500)| == 24
    ensures SOME_DATES.read(SOME_DATES.show(500)) == Some(500)
  {
  }

  /** Of two tokens that differ in their last letter only, both read as this place and the second was never issued. */
  lemma {:induction false} AcceptedButNeverIssued()
    ensures exists t :: && EncodeCursor(SOME_DATES, Cursor(500, SOME_ID)) == Some(t + "w")
                        && DecodeCursor(SOME_DATES, t + "x") == Some(Cursor(500, SOME_ID))
  {
    SomeDateIsLatin1();
    SevenEndsInW(SOME_DATES, Cursor(500, SOME_ID));
  }
}
