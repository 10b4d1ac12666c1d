/** Cursors and their text form: "nanoseconds:id" (server/internal/sync/service.go) and
    "nanoseconds|id" (server/internal/transaction/service.go). An id is a UUID: a number of 128 bits,
    compared as such by the database and printed in the canonical form of section 4 of RFC 9562. */
module PageToken {
  import opened Wrappers

  /** Position of a row in the listing order: time first, then id. */
  datatype Key = Key(time: int, id: nat)

  predicate Before(a: Key, b: Key) {
    a.time < b.time || (a.time == b.time && a.id < b.id)
  }

  const INT64_MIN: int := -0x8000_0000_0000_0000
  const INT64_MAX: int := 0x7FFF_FFFF_FFFF_FFFF

  const DIGITS: string := "0123456789"

  function DigitValue(c: char): Option<nat> {
    if '0' <= c <= '9' then Some((c - '0') as int) else None
  }

  /** Decimal text of a natural number. */
  function Decimal(n: nat): (s: string)
    ensures s != []
    ensures forall c :: c in s ==> '0' <= c <= '9'
  {
    if n < 10 then [DIGITS[n]] else Decimal(n / 10) + [DIGITS[n % 10]]
  }

  function ParseNat(s: string): Option<nat> {
    if s == [] then None
    else
      var last := DigitValue(s[|s| - 1]);
      if last.None? then None
      else if |s| == 1 then last
      else
        var before := ParseNat(s[..|s| - 1]);
        if before.None? then None else Some(10 * before.value + last.value)
  }

  lemma {:induction false} DecimalParses(n: nat)
    ensures ParseNat(Decimal(n)) == Some(n)
  {
    if n >= 10 {
      DecimalParses(n / 10);
      var s := Decimal(n);
      assert s[..|s| - 1] == Decimal(n / 10);
    }
  }

  /** %d */
  function PrintInt(n: int): string {
    if n < 0 then "-" + Decimal(-n) else Decimal(n)
  }

  /** strconv.ParseInt(s, 10, 64) */
  function ParseInt(s: string): Option<int> {
    var negative := s != [] && s[0] == '-';
    var digits := if s != [] && (s[0] == '-' || s[0] == '+') then s[1..] else s;
    var size := ParseNat(digits);
    if size.None? then None
    else
      var n: int := if negative then -(size.value as int) else size.value;
      if INT64_MIN <= n <= INT64_MAX then Some(n) else None
  }

  lemma PrintedIntParses(n: int)
    requires INT64_MIN <= n <= INT64_MAX
    ensures ParseInt(PrintInt(n)) == Some(n)
    ensures forall c :: c in PrintInt(n) ==> c == '-' || '0' <= c <= '9'
  {
    hide Decimal, ParseNat;
    var size: nat := if n < 0 then -n else n;
    var digits := Decimal(size);
    DecimalParses(size);
    assert digits[0] in digits;
    if n < 0 {
      assert PrintInt(n)[1..] == digits;
    }
  }

  /** strings.SplitN(s, sep, 2), when it yields two parts. */
  function Split(s: string, sep: char): Option<(string, string)> {
    if s == [] then None
    else if s[0] == sep then Some(([], s[1..]))
    else
      var rest := Split(s[1..], sep);
      if rest.None? then None else Some(([s[0]] + rest.value.0, rest.value.1))
  }

  lemma {:induction false} SplitsAtFirst(a: string, sep: char, b: string)
    requires sep !in a
    ensures Split(a + [sep] + b, sep) == Some((a, b))
  {
    var s := a + [sep] + b;
    if a == [] {
      assert s[1..] == b;
    } else {
      assert s[0] == a[0] && a[0] in a;
      assert s[1..] == a[1..] + [sep] + b;
      SplitsAtFirst(a[1..], sep, b);
      assert [a[0]] + a[1..] == a;
    }
  }

  // ---------------------------------------------------------------- UUIDs

  function Pow16(w: nat): nat {
    if w == 0 then 1 else 16 * Pow16(w - 1)
  }

  /** How many UUIDs there are. */
  const UUIDS: nat := Pow16(32)

  const HEX: string := "0123456789abcdef"

  function HexValue(c: char): Option<nat> {
    if '0' <= c <= '9' then Some((c - '0') as int)
    else if 'a' <= c <= 'f' then Some(10 + (c - 'a') as int)
    else if 'A' <= c <= 'F' then Some(10 + (c - 'A') as int)
    else None
  }

  /** The last w hexadecimal digits. */
  function Hex(n: nat, w: nat): (s: string)
    ensures |s| == w
  {
    if w == 0 then "" else Hex(n / 16, w - 1) + [HEX[n % 16]]
  }

  function ParseHex(s: string): Option<nat> {
    if s == [] then Some(0)
    else
      var before, last := ParseHex(s[..|s| - 1]), HexValue(s[|s| - 1]);
      if before.None? || last.None? then None else Some(16 * before.value + last.value)
  }

  lemma HexDigit(d: nat)
    requires d < 16
    ensures HexValue(HEX[d]) == Some(d)
  {}

  /** Digits are read in either case, and nothing else is a digit. */
  lemma HexReads(c: char)
    ensures HexValue(c) ==
            match c {
              case '0' => Some(0) case '1' => Some(1) case '2' => Some(2) case '3' => Some(3) case '4' => Some(4)
              case '5' => Some(5) case '6' => Some(6) case '7' => Some(7) case '8' => Some(8) case '9' => Some(9)
              case 'a' => Some(10) case 'b' => Some(11) case 'c' => Some(12)
              case 'd' => Some(13) case 'e' => Some(14) case 'f' => Some(15)
              case 'A' => Some(10) case 'B' => Some(11) case 'C' => Some(12)
              case 'D' => Some(13) case 'E' => Some(14) case 'F' => Some(15)
              case _ => None
            }
  {}

  lemma {:induction false} HexParses(n: nat, w: nat)
    requires n < Pow16(w)
    ensures ParseHex(Hex(n, w)) == Some(n)
  {
    hide HexValue;
    if w > 0 {
      HexDigit(n % 16);
      HexParses(n / 16, w - 1);
      var s := Hex(n, w);
      assert s[..|s| - 1] == Hex(n / 16, w - 1);
    }
  }

  /** The canonical form of 32 digits. */
  function Dashed(h: string): (s: string)
    requires |h| == 32
    ensures |s| == 36 && s[8] == s[13] == s[18] == s[23] == '-'
    ensures s[..8] == h[..8] && s[9..13] == h[8..12] && s[14..18] == h[12..16] && s[19..23] == h[16..20]
    ensures s[24..] == h[20..]
  {
    h[..8] + "-" + h[8..12] + "-" + h[12..16] + "-" + h[16..20] + "-" + h[20..]
  }

  /** uuid.String */
  function PrintUuid(n: nat): string {
    Dashed(Hex(n, 32))
  }

  /** uuid.Parse, on the canonical form. */
  function ParseUuid(s: string): Option<nat> {
    if |s| != 36 || s[8] != '-' || s[13] != '-' || s[18] != '-' || s[23] != '-' then None
    else ParseHex(s[..8] + s[9..13] + s[14..18] + s[19..23] + s[24..])
  }

  lemma UuidParses(n: nat)
    requires n < UUIDS
    ensures ParseUuid(PrintUuid(n)) == Some(n)
  {
    hide Hex, ParseHex, Pow16, Dashed;
    var h := Hex(n, 32);
    assert h[..8] + h[8..12] + h[12..16] + h[16..20] + h[20..] == h;
    HexParses(n, 32);
  }

  // ---------------------------------------------------------------- tokens

  /** ':' in sync tokens, '|' in transaction tokens. */
  predicate IsSeparator(sep: char) {
    sep == ':' || sep == '|'
  }

  function Print(k: Key, sep: char): string {
    PrintInt(k.time) + [sep] + PrintUuid(k.id)
  }

  /** A token that does not parse is ignored: the listing starts over. */
  function Parse(token: string, sep: char): Option<Key> {
    var parts := Split(token, sep);
    if parts.None? then None
    else
      var time, id := ParseInt(parts.value.0), ParseUuid(parts.value.1);
      if time.None? || id.None? then None else Some(Key(time.value, id.value))
  }

  /** The cursor a client comes back with after being handed one: printed into the token and parsed again. */
  function Resume(k: Key, sep: char): Option<Key> {
    Parse(Print(k, sep), sep)
  }

  /** Tokens round-trip. */
  lemma TokenRoundTrip(k: Key, sep: char)
    requires INT64_MIN <= k.time <= INT64_MAX && k.id < UUIDS
    requires IsSeparator(sep)
    ensures Resume(k, sep) == Some(k)
  {
    hide PrintUuid, ParseUuid, PrintInt, ParseInt;
    PrintedIntParses(k.time);
    UuidParses(k.id);
    SplitsAtFirst(PrintInt(k.time), sep, PrintUuid(k.id));
  }

  /** A token without its separator, or with a part that is not a number in range or an id, starts the listing over. */
  lemma MalformedStartsOver(a: string, sep: char, b: string)
    requires sep !in a
    ensures Parse(a, sep) == None
    ensures ParseInt(a).None? || ParseUuid(b).None? ==> Parse(a + [sep] + b, sep) == None
  {
    hide ParseInt, ParseUuid, Split;
    NoSplit(a, sep);
    SplitsAtFirst(a, sep, b);
  }

  lemma {:induction false} NoSplit(s: string, sep: char)
    requires sep !in s
    ensures Split(s, sep) == None
  {
    if s != [] {
      assert s[0] in s && forall c :: c in s[1..] ==> c in s;
      NoSplit(s[1..], sep);
    }
  }

  /** What is no number: the empty text, a bare sign, and anything with a character that is no digit after the sign. */
  lemma {:induction false} NotANumber(s: string)
    ensures s == "" || s == "-" || s == "+" ==> ParseInt(s) == None
    ensures (exists i :: 0 < i < |s| && !('0' <= s[i] <= '9')) ==> ParseInt(s) == None
  {
    if i :| 0 < i < |s| && !('0' <= s[i] <= '9') {
      var signed := s[0] == '-' || s[0] == '+';
      var digits := if signed then s[1..] else s;
      assert digits[if signed then i - 1 else i] == s[i];
      NoDigits(digits, if signed then i - 1 else i);
    }
  }

  lemma {:induction false} NoDigits(s: string, i: nat)
    requires i < |s| && !('0' <= s[i] <= '9')
    ensures ParseNat(s) == None
  {
    if i < |s| - 1 {
      NoDigits(s[..|s| - 1], i);
    }
  }
}
