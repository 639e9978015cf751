/** `_b64url_encode` and `_b64url_decode` of django/users/api_views.py: the URL-safe
    alphabet of section 5 of RFC 4648, with the padding stripped. */
module Base64Url {
  import opened Wrappers

  newtype byte = b: int | 0 <= b < 256

  type Bytes = seq<byte>

  type Sextet = v: int | 0 <= v < 64 witness 0

  // ---- Characters --------------------------------------------------------------------------

  function CharOf(v: Sextet): (c: char)
    ensures c != '=' && c != '.'
  {
    if v < 26 then ('A' as int + v) as char
    else if v < 52 then ('a' as int + v - 26) as char
    else if v < 62 then ('0' as int + v - 52) as char
    else if v == 62 then '-'
    else '_'
  }

  /** The decoder also takes the two characters of the plain alphabet. */
  function SextetOf(c: char): Option<Sextet> {
    if 'A' <= c <= 'Z' then Some(c as int - 'A' as int)
    else if 'a' <= c <= 'z' then Some(c as int - 'a' as int + 26)
    else if '0' <= c <= '9' then Some(c as int - '0' as int + 52)
    else if c == '-' || c == '+' then Some(62)
    else if c == '_' || c == '/' then Some(63)
    else None
  }

  lemma SextetRoundTrip(v: Sextet)
    ensures SextetOf(CharOf(v)) == Some(v)
  {
  }

  // ---- Encoding -----------------------------------------------------------------------------

  function First(a: byte): Sextet {
    a as int / 4
  }

  function Second(a: byte, b: byte): Sextet {
    a as int % 4 * 16 + b as int / 16
  }

  function Third(b: byte, c: byte): Sextet {
    b as int % 16 * 4 + c as int / 64
  }

  function Fourth(c: byte): Sextet {
    c as int % 64
  }

  function Group(a: byte, b: byte, c: byte): (g: string)
    ensures |g| == 4 && forall i :: 0 <= i < 4 ==> g[i] != '=' && g[i] != '.'
  {
    [CharOf(First(a)), CharOf(Second(a, b)), CharOf(Third(b, c)), CharOf(Fourth(c))]
  }

  /** Four characters for three bytes, the last group filled up with '='. */
  function Padded(raw: Bytes): string {
    if raw == [] then ""
    else if |raw| == 1 then [CharOf(First(raw[0])), CharOf(Second(raw[0], 0)), '=', '=']
    else if |raw| == 2 then [CharOf(First(raw[0])), CharOf(Second(raw[0], raw[1])), CharOf(Third(raw[1], 0)), '=']
    else Group(raw[0], raw[1], raw[2]) + Padded(raw[3..])
  }

  function StripPads(s: string): (r: string)
    ensures r <= s && (r == "" || r[|r| - 1] != '=')
  {
    if s != "" && s[|s| - 1] == '=' then StripPads(s[..|s| - 1]) else s
  }

  function Encode(raw: Bytes): string {
    StripPads(Padded(raw))
  }

  // ---- Decoding ------------------------------------------------------------------------------

  /** Python's lenient decoder, at place `q` of a group whose unused bits are `left` and
      after `pads` signs of padding: foreign characters are skipped, enough padding ends
      the data, and an unfinished group is an error. */
  function Scan(s: string, q: nat, left: nat, pads: nat): Option<Bytes>
    requires q <= 3 && left < (if q == 1 then 64 else if q == 2 then 16 else if q == 3 then 4 else 1)
  {
    if s == "" then (if q == 0 then Some([]) else None)
    else if s[0] == '=' then
      if q >= 2 && q + pads + 1 >= 4 then Some([]) else Scan(s[1..], q, left, if q >= 2 then pads + 1 else pads)
    else if SextetOf(s[0]).None? then Scan(s[1..], q, left, pads)
    else
      var v := SextetOf(s[0]).value;
      if q == 0 then Scan(s[1..], 1, v, 0)
      else if q == 1 then Prepend((left * 4 + v / 16) as byte, Scan(s[1..], 2, v % 16, 0))
      else if q == 2 then Prepend((left * 16 + v / 4) as byte, Scan(s[1..], 3, v % 4, 0))
      else Prepend((left * 64 + v) as byte, Scan(s[1..], 0, 0, 0))
  }

  function Prepend(b: byte, rest: Option<Bytes>): Option<Bytes> {
    if rest.Some? then Some([b] + rest.value) else None
  }

  function Pads(n: nat): (s: string)
    ensures |s| == n && forall i :: 0 <= i < n ==> s[i] == '='
  {
    seq(n, i requires 0 <= i < n => '=')
  }

  /** The missing padding is worked out from the length. */
  function Decode(s: string): Option<Bytes> {
    Scan(s + Pads(-|s| % 4), 0, 0, 0)
  }

  // ---- The padding comes back ----------------------------------------------------------------

  function PadCount(n: nat): nat {
    if n % 3 == 0 then 0 else 3 - n % 3
  }

  lemma {:induction false} StripPadsEnd(body: string, k: nat)
    requires body == "" || body[|body| - 1] != '='
    ensures StripPads(body + Pads(k)) == body
    decreases k
  {
    if k == 0 {
      assert body + Pads(0) == body;
    } else {
      StripPadsEnd(body, k - 1);
      assert (body + Pads(k))[..|body| + k - 1] == body + Pads(k - 1);
    }
  }

  predicate PlainText(s: string) {
    forall i :: 0 <= i < |s| ==> s[i] != '=' && s[i] != '.'
  }

  /** A padded text is a plain one, of a length that tells how much padding follows. */
  predicate PaddedAs(text: string, body: string, pads: nat) {
    text == body + Pads(pads) && PlainText(body) && pads < 4 && (|body| + pads) % 4 == 0
  }

  lemma PaddedStep(group: string, text: string, body: string, pads: nat)
    requires |group| == 4 && PlainText(group) && PaddedAs(text, body, pads)
    ensures PaddedAs(group + text, group + body, pads)
  {
    assert group + (body + Pads(pads)) == group + body + Pads(pads);
  }

  lemma PaddedEnd(raw: Bytes) returns (body: string)
    requires |raw| < 3
    ensures PaddedAs(Padded(raw), body, PadCount(|raw|))
  {
    body := Padded(raw)[..|Padded(raw)| - PadCount(|raw|)];
    assert Pads(0) == "" && Pads(1) == "=" && Pads(2) == "==";
  }

  lemma PadCountRepeats(n: nat)
    ensures PadCount(n + 3) == PadCount(n)
  {
    assert (n + 3) % 3 == n % 3;
  }

  lemma {:induction false} PaddedShape(raw: Bytes) returns (body: string)
    ensures PaddedAs(Padded(raw), body, PadCount(|raw|))
    decreases |raw|
  {
    if |raw| < 3 {
      body := PaddedEnd(raw);
    } else {
      var group := Group(raw[0], raw[1], raw[2]);
      var rest := PaddedShape(raw[3..]);
      PadCountRepeats(|raw[3..]|);
      PaddedStep(group, Padded(raw[3..]), rest, PadCount(|raw|));
      body := group + rest;
    }
  }

  lemma PadsFromLength(n: int, pads: nat)
    requires pads < 4 && (n + pads) % 4 == 0
    ensures -n % 4 == pads
  {
  }

  lemma EncodeIsBody(raw: Bytes)
    ensures PaddedAs(Padded(raw), Encode(raw), PadCount(|raw|))
  {
    var body := PaddedShape(raw);
    StripPadsEnd(body, PadCount(|raw|));
  }

  lemma PaddingFits(text: string, body: string, pads: nat)
    requires PaddedAs(text, body, pads)
    ensures body + Pads(-|body| % 4) == text
  {
    PadsFromLength(|body|, pads);
  }

  lemma EncodeShape(raw: Bytes)
    ensures Encode(raw) + Pads(-|Encode(raw)| % 4) == Padded(raw) && PlainText(Encode(raw))
  {
    EncodeIsBody(raw);
    PaddingFits(Padded(raw), Encode(raw), PadCount(|raw|));
  }

  // ---- The bytes come back -----------------------------------------------------------------------

  lemma ScanLast(left: nat, c: byte, rest: string)
    requires Scan(rest, 0, 0, 0).Some? && left == c as int / 64
    ensures Scan([CharOf(Fourth(c))] + rest, 3, left, 0) == Some([c] + Scan(rest, 0, 0, 0).value)
  {
    SextetRoundTrip(Fourth(c));
    assert ([CharOf(Fourth(c))] + rest)[1..] == rest;
  }

  lemma ScanThird(left: nat, b: byte, c: byte, rest: string)
    requires Scan(rest, 3, c as int / 64, 0).Some? && left == b as int / 16
    ensures Scan([CharOf(Third(b, c))] + rest, 2, left, 0) == Some([b] + Scan(rest, 3, c as int / 64, 0).value)
  {
    SextetRoundTrip(Third(b, c));
    assert ([CharOf(Third(b, c))] + rest)[1..] == rest;
  }

  lemma ScanFirstTwo(a: byte, b: byte, rest: string)
    requires Scan(rest, 2, b as int / 16, 0).Some?
    ensures Scan([CharOf(First(a))] + ([CharOf(Second(a, b))] + rest), 0, 0, 0) == Some([a] + Scan(rest, 2, b as int / 16, 0).value)
  {
    SextetRoundTrip(First(a));
    SextetRoundTrip(Second(a, b));
    var more := [CharOf(Second(a, b))] + rest;
    assert more[1..] == rest && ([CharOf(First(a))] + more)[1..] == more;
  }

  lemma ScanFour(a: byte, b: byte, c: byte, rest: string)
    requires Scan(rest, 0, 0, 0).Some?
    ensures Scan(Group(a, b, c) + rest, 0, 0, 0) == Some([a, b, c] + Scan(rest, 0, 0, 0).value)
  {
    var fourth := [CharOf(Fourth(c))] + rest;
    var third := [CharOf(Third(b, c))] + fourth;
    ScanLast(c as int / 64, c, rest);
    ScanThird(b as int / 16, b, c, fourth);
    ScanFirstTwo(a, b, third);
    assert Group(a, b, c) + rest == [CharOf(First(a))] + ([CharOf(Second(a, b))] + third);
    var tail := Scan(rest, 0, 0, 0).value;
    assert [a] + ([b] + ([c] + tail)) == [a, b, c] + tail;
  }

  lemma ScanTwo(a: byte, b: byte)
    ensures Scan([CharOf(First(a)), CharOf(Second(a, b)), CharOf(Third(b, 0)), '='], 0, 0, 0) == Some([a, b])
  {
    var s := [CharOf(First(a)), CharOf(Second(a, b)), CharOf(Third(b, 0)), '='];
    SextetRoundTrip(First(a));
    SextetRoundTrip(Second(a, b));
    SextetRoundTrip(Third(b, 0));
    assert s[1..] == [s[1], s[2], s[3]] && s[1..][1..] == [s[2], s[3]] && [s[2], s[3]][1..] == ['='];
    assert Scan(['='], 3, 0, 0) == Some([]);
    assert [b] + [] == [b];
    assert Scan([s[2], s[3]], 2, b as int / 16, 0) == Some([b]);
    assert [a] + [b] == [a, b];
  }

  lemma ScanOne(a: byte)
    ensures Scan([CharOf(First(a)), CharOf(Second(a, 0)), '=', '='], 0, 0, 0) == Some([a])
  {
    var s := [CharOf(First(a)), CharOf(Second(a, 0)), '=', '='];
    SextetRoundTrip(First(a));
    SextetRoundTrip(Second(a, 0));
    assert s[1..] == [s[1], '=', '='] && s[1..][1..] == ['=', '='] && ['=', '='][1..] == ['='];
    assert Scan(['='], 2, 0, 1) == Some([]);
    assert Scan(['=', '='], 2, 0, 0) == Some([]);
    assert [a] + [] == [a];
    assert Scan(s[1..], 1, First(a), 0) == Some([a]);
  }

  lemma {:induction false} ScanPadded(raw: Bytes)
    ensures Scan(Padded(raw), 0, 0, 0) == Some(raw)
  {
    if |raw| == 1 {
      ScanOne(raw[0]);
      assert raw == [raw[0]];
    } else if |raw| == 2 {
      ScanTwo(raw[0], raw[1]);
      assert raw == [raw[0], raw[1]];
    } else if |raw| > 2 {
      ScanPadded(raw[3..]);
      ScanFour(raw[0], raw[1], raw[2], Padded(raw[3..]));
      assert raw == [raw[0], raw[1], raw[2]] + raw[3..];
    }
  }

  /** Decoding undoes encoding on all byte strings, the stripped padding recovered from
      the length. */
  lemma DecodeEncode(raw: Bytes)
    ensures Decode(Encode(raw)) == Some(raw)
  {
    EncodeShape(raw);
    ScanPadded(raw);
  }

  // ---- The code itself -----------------------------------------------------------------------------

  /** Table 2 of RFC 4648. */
  const ALPHABET: string := "ABCDEFGHIJKLM" + "NOPQRSTUVWXYZ" + "abcdefghijklm" + "nopqrstuvwxyz" + "0123456789" + "-_"

  lemma AlphabetIs(v: Sextet)
    ensures |ALPHABET| == 64 && CharOf(v) == ALPHABET[v]
  {
  }

  /** Three bytes and their four characters are the same 24 bits, highest first. */
  lemma GroupIsNumber(a: byte, b: byte, c: byte)
    ensures a as int * 65536 + b as int * 256 + c as int
      == First(a) * 262144 + Second(a, b) * 4096 + Third(b, c) * 64 + Fourth(c)
  {
  }

  /** The text of three bytes and more: their four characters of the alphabet, then the
      text of the rest. */
  lemma EncodeGroups(a: byte, b: byte, c: byte, rest: Bytes)
    ensures Encode([a, b, c] + rest)
      == [ALPHABET[First(a)], ALPHABET[Second(a, b)], ALPHABET[Third(b, c)], ALPHABET[Fourth(c)]] + Encode(rest)
  {
    AlphabetIs(First(a));
    AlphabetIs(Second(a, b));
    AlphabetIs(Third(b, c));
    AlphabetIs(Fourth(c));
    var raw := [a, b, c] + rest;
    assert raw[3..] == rest;
    EncodeIsBody(rest);
    var body := Group(a, b, c) + Encode(rest);
    PaddedStep(Group(a, b, c), Padded(rest), Encode(rest), PadCount(|rest|));
    StripPadsEnd(body, PadCount(|rest|));
  }
}
