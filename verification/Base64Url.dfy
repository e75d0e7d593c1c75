/** Base64 with the URL alphabet of section 5 of RFC 4648, without its padding: the
    printer and the lenient parser behind the photo tokens. */
module Base64Url {
  import opened Collections
  import opened Text

  type Byte = b: int | 0 <= b < 256
  type Sextet = v: int | 0 <= v < 64

  function Char(v: Sextet): char {
    if v < 26 then 'A' + v as char
    else if v < 52 then 'a' + (v - 26) as char
    else if v < 62 then '0' + (v - 52) as char
    else if v == 62 then '-' else '_'
  }

  /** Both alphabets are read: the URL characters are translated to the standard
      ones first, and the standard ones were legal before. */
  function Value(c: char): Option<Sextet> {
    if 'A' <= c <= 'Z' then Some(c as int - 'A' as int)
    else if 'a' <= c <= 'z' then Some(c as int - 'a' as int + 26)
    else if '0' <= c <= '9' then Some(c as int - '0' as int + 52)
    else if c == '-' || c == '+' then Some(62)
    else if c == '_' || c == '/' then Some(63)
    else None
  }

  /** The four characters of three bytes. */
  function Group(a: Byte, b: Byte, c: Byte): (s: string)
    ensures |s| == 4
  {
    [Char(a / 4), Char(a % 4 * 16 + b / 16), Char(b % 16 * 4 + c / 64), Char(c % 64)]
  }

  /** `base64.urlsafe_b64encode` */
  function EncodePadded(raw: seq<Byte>): string {
    if |raw| == 0 then ""
    else if |raw| == 1 then [Char(raw[0] / 4), Char(raw[0] % 4 * 16), '=', '=']
    else if |raw| == 2 then
      [Char(raw[0] / 4), Char(raw[0] % 4 * 16 + raw[1] / 16), Char(raw[1] % 16 * 4), '=']
    else
      Group(raw[0], raw[1], raw[2]) + EncodePadded(raw[3..])
  }

  /** `.rstrip(b"=")` */
  function StripPadding(s: string): string {
    if s != "" && s[|s| - 1] == '=' then StripPadding(s[..|s| - 1]) else s
  }

  function Encode(raw: seq<Byte>): string {
    StripPadding(EncodePadded(raw))
  }

  function Padding(n: nat): string {
    if n == 0 then "" else Padding(n - 1) + "="
  }

  /** `encoded + "=" * (-len(encoded) % 4)` */
  function Repad(encoded: string): string {
    encoded + Padding(-|encoded| % 4)
  }

  /** The loop of `binascii.a2b_base64` outside strict mode: characters of neither
      alphabet are skipped, and padding ends the input once it completes a group. */
  function Scan(s: string, quad: nat, left: int, pads: nat): Option<seq<Byte>>
    requires quad < 4 && (quad == 0 ==> left == 0) && 0 <= left
    requires (quad == 1 ==> left < 64) && (quad == 2 ==> left < 16) && (quad == 3 ==> left < 4)
  {
    if s == "" then if quad == 0 then Some([]) else None
    else if s[0] == '=' then
      if quad >= 2 && quad + pads + 1 >= 4 then Some([])
      else Scan(s[1..], quad, left, if quad >= 2 then pads + 1 else pads)
    else
      match Value(s[0])
      case None => Scan(s[1..], quad, left, pads)
      case Some(v) =>
        if quad == 0 then Scan(s[1..], 1, v, 0)
        else if quad == 1 then Emit(left * 4 + v / 16, Scan(s[1..], 2, v % 16, 0))
        else if quad == 2 then Emit(left * 16 + v / 4, Scan(s[1..], 3, v % 4, 0))
        else Emit(left * 64 + v, Scan(s[1..], 0, 0, 0))
  }

  function Emit(b: Byte, rest: Option<seq<Byte>>): Option<seq<Byte>> {
    match rest
    case None => None
    case Some(bytes) => Some([b] + bytes)
  }

  /** `base64.urlsafe_b64decode`; None stands for its exceptions. */
  function Decode(s: string): Option<seq<Byte>> {
    if Ascii(s) then Scan(s, 0, 0, 0) else None
  }

  // ----------------------------------------------------------------- round trip

  predicate InAlphabet(c: char) {
    'A' <= c <= 'Z' || 'a' <= c <= 'z' || '0' <= c <= '9' || c == '-' || c == '_'
  }

  lemma CharValue(v: Sextet)
    ensures Value(Char(v)) == Some(v) && InAlphabet(Char(v))
  {
  }

  /** How many characters of padding the text of n bytes has. */
  function Pads(n: nat): nat {
    if n % 3 == 0 then 0 else 3 - n % 3
  }

  /** The text before its padding. */
  function Body(raw: seq<Byte>): string {
    if |raw| == 0 then ""
    else if |raw| == 1 then [Char(raw[0] / 4), Char(raw[0] % 4 * 16)]
    else if |raw| == 2 then [Char(raw[0] / 4), Char(raw[0] % 4 * 16 + raw[1] / 16), Char(raw[1] % 16 * 4)]
    else
      Group(raw[0], raw[1], raw[2]) + Body(raw[3..])
  }

  lemma {:induction false} BodyThenPadding(raw: seq<Byte>)
    ensures EncodePadded(raw) == Body(raw) + Padding(Pads(|raw|))
    decreases |raw|
  {
    hide Char, Group;
    if |raw| < 3 {
      assert Padding(0) == "" && Padding(1) == "=" && Padding(2) == "==";
    } else {
      hide Padding, Pads;
      BodyThenPadding(raw[3..]);
      PadsPeriod(|raw|);
      Assoc(Group(raw[0], raw[1], raw[2]), Body(raw[3..]), Padding(Pads(|raw|)));
    }
  }

  lemma {:induction false} BodyLength(raw: seq<Byte>)
    ensures (|Body(raw)| + Pads(|raw|)) % 4 == 0
    decreases |raw|
  {
    hide Char, Group;
    if |raw| >= 3 {
      hide Pads;
      BodyLength(raw[3..]);
      PadsPeriod(|raw|);
      FourMore(|Body(raw[3..])| + Pads(|raw|));
      assert |Body(raw)| == 4 + |Body(raw[3..])|;
    }
  }

  lemma FourMore(n: int)
    ensures (n + 4) % 4 == n % 4
  {
  }

  lemma PadsPeriod(n: nat)
    requires n >= 3
    ensures Pads(n) == Pads(n - 3)
  {
  }

  lemma Assoc(a: string, b: string, c: string)
    ensures a + (b + c) == a + b + c
  {
  }

  lemma {:induction false} BodyChars(raw: seq<Byte>, c: char)
    requires c in Body(raw)
    ensures InAlphabet(c)
    decreases |raw|
  {
    if |raw| >= 3 && c in Body(raw[3..]) {
      BodyChars(raw[3..], c);
    }
  }

  lemma {:induction false} StripsAll(body: string, n: nat)
    requires body == "" || body[|body| - 1] != '='
    ensures StripPadding(body + Padding(n)) == body
    decreases n
  {
    if n == 0 {
      assert body + Padding(0) == body;
    } else {
      var s := body + Padding(n);
      assert s == body + Padding(n - 1) + "=";
      assert s[..|s| - 1] == body + Padding(n - 1);
      StripsAll(body, n - 1);
    }
  }

  /** Stripping the padding loses nothing: `-len % 4` puts back exactly as much. */
  lemma RepadRestores(raw: seq<Byte>)
    ensures Encode(raw) == Body(raw) && Repad(Encode(raw)) == EncodePadded(raw)
  {
    hide Body, EncodePadded, StripPadding, Padding, Pads;
    var body := Body(raw);
    BodyThenPadding(raw);
    BodyLength(raw);
    assert Pads(|raw|) < 4 by {
      PadsBound(|raw|);
    }
    if body != "" {
      BodyChars(raw, body[|body| - 1]);
    }
    StripsAll(body, Pads(|raw|));
    MissingToFour(|body|, Pads(|raw|));
  }

  lemma PadsBound(n: nat)
    ensures Pads(n) < 3
  {
  }

  lemma MissingToFour(length: int, pads: nat)
    requires pads < 4 && (length + pads) % 4 == 0
    ensures -length % 4 == pads
  {
  }

  lemma {:induction false} ScanInverts(raw: seq<Byte>)
    ensures Scan(EncodePadded(raw), 0, 0, 0) == Some(raw)
    decreases |raw|
  {
    if |raw| == 1 {
      ScanOne(raw[0]);
      assert raw == [raw[0]];
    } else if |raw| == 2 {
      ScanTwo(raw[0], raw[1]);
      assert raw == [raw[0], raw[1]];
    } else if |raw| >= 3 {
      hide Scan, Char, Group;
      ScanInverts(raw[3..]);
      ScanGroup(raw[0], raw[1], raw[2], EncodePadded(raw[3..]));
      assert raw == [raw[0], raw[1], raw[2]] + raw[3..];
    }
  }

  lemma ScanFirst(c: char, d: char, rest: string, v: Sextet, w: Sextet)
    requires c == Char(v) && d == Char(w)
    ensures Scan([c, d] + rest, 0, 0, 0) == Emit(v * 4 + w / 16, Scan(rest, 2, w % 16, 0))
  {
    CharValue(v);
    CharValue(w);
    assert ([c, d] + rest)[1..] == [d] + rest;
    assert ([d] + rest)[1..] == rest;
    assert InAlphabet(c) && InAlphabet(d);
  }

  lemma ScanThird(c: char, rest: string, left: int, v: Sextet)
    requires c == Char(v) && 0 <= left < 16
    ensures Scan([c] + rest, 2, left, 0) == Emit(left * 16 + v / 4, Scan(rest, 3, v % 4, 0))
  {
    CharValue(v);
    assert ([c] + rest)[1..] == rest;
  }

  /** A sextet put together from two parts comes apart into them. */
  lemma Parts(high: int, low: int, base: int)
    requires base in {4, 16, 64} && 0 <= low < base
    ensures (high * base + low) / base == high && (high * base + low) % base == low
  {
  }

  lemma ScanOne(a: Byte)
    ensures Scan([Char(a / 4), Char(a % 4 * 16), '=', '='], 0, 0, 0) == Some([a])
  {
    Parts(a % 4, 0, 16);
    ScanFirst(Char(a / 4), Char(a % 4 * 16), ['=', '='], a / 4, a % 4 * 16);
    assert [Char(a / 4), Char(a % 4 * 16)] + ['=', '='] == [Char(a / 4), Char(a % 4 * 16), '=', '='];
    assert ['=', '='][1..] == ['='];
    assert Scan(['='], 2, 0, 1) == Some([]);
    assert Scan(['=', '='], 2, 0, 0) == Some([]);
    assert a / 4 * 4 + a % 4 == a && [a] + [] == [a];
  }

  lemma ScanTwo(a: Byte, b: Byte)
    ensures Scan([Char(a / 4), Char(a % 4 * 16 + b / 16), Char(b % 16 * 4), '='], 0, 0, 0) == Some([a, b])
  {
    var c, d, e := Char(a / 4), Char(a % 4 * 16 + b / 16), Char(b % 16 * 4);
    Parts(a % 4, b / 16, 16);
    Parts(b % 16, 0, 4);
    ScanFirst(c, d, [e, '='], a / 4, a % 4 * 16 + b / 16);
    assert [c, d] + [e, '='] == [c, d, e, '='] && [e] + ['='] == [e, '='];
    ScanThird(e, ['='], b / 16, b % 16 * 4);
    assert Scan(['='], 3, 0, 0) == Some([]);
    assert a / 4 * 4 + a % 4 == a && b / 16 * 16 + b % 16 == b && [a] + ([b] + []) == [a, b];
  }

  lemma ScanLast(t: char, rest: string, left: int, v: Sextet)
    requires t == Char(v) && 0 <= left < 4
    ensures Scan([t] + rest, 3, left, 0) == Emit(left * 64 + v, Scan(rest, 0, 0, 0))
  {
    CharValue(v);
    assert ([t] + rest)[1..] == rest;
    assert InAlphabet(t);
  }

  lemma ScanGroup(a: Byte, b: Byte, c: Byte, rest: string)
    requires Scan(rest, 0, 0, 0).Some?
    ensures Scan(Group(a, b, c) + rest, 0, 0, 0)
         == Some([a, b, c] + Scan(rest, 0, 0, 0).value)
  {
    hide Char, Scan;
    var p, q, r, t := Char(a / 4), Char(a % 4 * 16 + b / 16), Char(b % 16 * 4 + c / 64), Char(c % 64);
    Parts(a % 4, b / 16, 16);
    Parts(b % 16, c / 64, 4);
    ScanFirst(p, q, [r, t] + rest, a / 4, a % 4 * 16 + b / 16);
    assert [p, q] + ([r, t] + rest) == [p, q, r, t] + rest;
    ScanThird(r, [t] + rest, b / 16, b % 16 * 4 + c / 64);
    assert [r] + ([t] + rest) == [r, t] + rest;
    ScanLast(t, rest, c / 64, c % 64);
    assert a / 4 * 4 + a % 4 == a && b / 16 * 16 + b % 16 == b && c / 64 * 64 + c % 64 == c;
    var tail := Scan(rest, 0, 0, 0).value;
    assert [a] + ([b] + ([c] + tail)) == [a, b, c] + tail;
  }

  /** Decoding undoes encoding, for every byte string. */
  lemma RoundTrip(raw: seq<Byte>)
    ensures Decode(Repad(Encode(raw))) == Some(raw)
  {
    RepadRestores(raw);
    ScanInverts(raw);
    BodyThenPadding(raw);
    forall c | c in EncodePadded(raw) ensures c < '\U{80}' {
      if c in Body(raw) {
        BodyChars(raw, c);
      } else {
        PaddingChars(Pads(|raw|), c);
      }
    }
  }

  lemma {:induction false} PaddingChars(n: nat, c: char)
    requires c in Padding(n)
    ensures c == '='
  {
    if c in Padding(n - 1) {
      PaddingChars(n - 1, c);
    }
  }
}
