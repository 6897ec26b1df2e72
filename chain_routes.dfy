/**
 * The on-chain playlist lookup: base16 remarks (section 8 of RFC 4648) decoded to UTF-8,
 * the compact channel list of an `IPTV:` remark, the djb2 hash behind channel ids (64-bit
 * wrapping arithmetic), and the newest-first scan over a list of extrinsic records.
 */
module ChainRoutes {
  import opened Wrappers
  import opened Text
  import opened Utf8
  import opened Decimal
  import opened Models
  import opened Json

  // ---------------------------------------------------------------- base16

  predicate IsHexDigit(b: byte) {
    (48 <= b <= 57) || (97 <= b <= 102) || (65 <= b <= 70)
  }

  function HexValue(b: byte): (v: nat)
    requires IsHexDigit(b)
    ensures v < 16
  {
    if b <= 57 then (b - 48) as nat else if b >= 97 then (b - 87) as nat else (b - 55) as nat
  }

  /**
   * `u8::from_str_radix(pair, 16)` on a two-byte slice: two hex digits, or a '+' sign
   * followed by one; a '-' sign is refused for an unsigned type.
   */
  function PairValue(x: byte, y: byte): (r: Option<byte>)
    ensures r.Some? <==> (IsHexDigit(x) || x == 43) && IsHexDigit(y)
  {
    if !IsHexDigit(y) then None
    else if x == 43 then Some(HexValue(y) as byte)
    else if IsHexDigit(x) then Some((HexValue(x) * 16 + HexValue(y)) as byte)
    else None
  }

  /**
   * The bytes of the pairs at even offsets of `b` that parse; a pair that does not parse and
   * a trailing odd byte are dropped without an error.
   */
  function HexBytes(b: seq<byte>): (r: seq<byte>)
    ensures |r| <= |b| / 2
    decreases |b|
  {
    if |b| < 2 then []
    else
      (match PairValue(b[0], b[1]) case Some(v) => [v] case None => []) + HexBytes(b[2..])
  }

  function StripHexPrefix(hex: string): (r: string)
    ensures StartsWith(hex, "0x") ==> hex == "0x" + r
    ensures !StartsWith(hex, "0x") ==> r == hex
  {
    if StartsWith(hex, "0x") then hex[2..] else hex
  }

  /** `decode_hex_to_string`: the UTF-8 text of the decoded bytes, or None when they are not UTF-8. */
  function DecodeHexToString(hex: string): (r: Option<string>)
    ensures r.Some? ==> |Encode(r.value)| <= |Encode(StripHexPrefix(hex))| / 2
  {
    var bytes := HexBytes(Encode(StripHexPrefix(hex)));
    var r := Decode(bytes);
    if r.Some? then EncodeDecode(bytes); r else r
  }

  // The partner of the decoder: lower-case base16 text of a byte string.

  function HexDigitChar(v: nat): (c: char)
    requires v < 16
  {
    if v < 10 then ('0' as int + v) as char else ('a' as int + v - 10) as char
  }

  function HexText(b: seq<byte>): (s: string)
    ensures |s| == 2 * |b|
  {
    if b == [] then [] else [HexDigitChar(b[0] as nat / 16), HexDigitChar(b[0] as nat % 16)] + HexText(b[1..])
  }

  /** The bytes of text made of characters below 0x80 are the characters themselves. */
  function AsciiBytes(s: string): (b: seq<byte>)
    requires forall i :: 0 <= i < |s| ==> s[i] as int < 0x80
    ensures |b| == |s|
  {
    seq(|s|, i requires 0 <= i < |s| => s[i] as int as byte)
  }

  lemma {:induction false} EncodeAsciiText(s: string)
    requires forall i :: 0 <= i < |s| ==> s[i] as int < 0x80
    ensures Encode(s) == AsciiBytes(s)
  {
    if s != [] {
      EncodeAsciiText(s[1..]);
      assert AsciiBytes(s) == [s[0] as int as byte] + AsciiBytes(s[1..]);
    }
  }

  lemma {:induction false} HexTextAsciiRec(b: seq<byte>)
    ensures forall i :: 0 <= i < |HexText(b)| ==> HexText(b)[i] as int < 0x80 && IsHexDigit(HexText(b)[i] as int as byte)
  {
    if b != [] {
      HexTextAsciiRec(b[1..]);
      var t := HexText(b);
      assert t[2..] == HexText(b[1..]);
      forall i | 0 <= i < |t|
        ensures t[i] as int < 0x80 && IsHexDigit(t[i] as int as byte)
      {
        if i >= 2 {
          assert t[i] == HexText(b[1..])[i - 2];
        }
      }
    }
  }

  /** Decoding the bytes of base16 text gives back the bytes it was made from. */
  lemma {:induction false} HexBytesOfHexText(b: seq<byte>)
    ensures forall i :: 0 <= i < |HexText(b)| ==> HexText(b)[i] as int < 0x80
    ensures HexBytes(AsciiBytes(HexText(b))) == b
  {
    HexTextAsciiRec(b);
    if b != [] {
      var t := HexText(b);
      var bytes := AsciiBytes(t);
      HexBytesOfHexText(b[1..]);
      assert t[2..] == HexText(b[1..]);
      assert bytes[2..] == AsciiBytes(HexText(b[1..]));
      var hi, lo := b[0] as nat / 16, b[0] as nat % 16;
      assert HexValue(bytes[0]) == hi && HexValue(bytes[1]) == lo;
      assert PairValue(bytes[0], bytes[1]) == Some(b[0]);
      assert HexBytes(bytes) == [b[0]] + HexBytes(bytes[2..]);
    }
  }

  /** Base16 text of a string's bytes, with or without "0x", decodes back to the string. */
  lemma DecodeHexOfHexText(s: string)
    ensures DecodeHexToString(HexText(Encode(s))) == Some(s)
    ensures DecodeHexToString("0x" + HexText(Encode(s))) == Some(s)
  {
    var t := HexText(Encode(s));
    HexBytesOfHexText(Encode(s));
    EncodeAsciiText(t);
    if |t| >= 2 {
      HexTextAsciiRec(Encode(s));
      assert t[1] as int as byte != 120;
    }
    assert !StartsWith(t, "0x");
    assert StripHexPrefix("0x" + t) == t;
    DecodeEncode(s);
  }

  lemma EncodeHello()
    ensures Encode("Hello") == [72, 101, 108, 108, 111]
  {
    EncodeAsciiText("Hello");
  }

  lemma HexTextStep(x: byte, rest: seq<byte>, hi: char, lo: char)
    requires hi == HexDigitChar(x as nat / 16) && lo == HexDigitChar(x as nat % 16)
    ensures HexText([x] + rest) == [hi, lo] + HexText(rest)
  {
    assert ([x] + rest)[1..] == rest;
  }

  lemma HelloHexText()
    ensures HexText(Encode("Hello")) == "48656c6c6f"
  {
    EncodeHello();
    HexTextStep(111, [], '6', 'f');
    HexTextStep(108, [111], '6', 'c');
    HexTextStep(108, [108, 111], '6', 'c');
    HexTextStep(101, [108, 108, 111], '6', '5');
    HexTextStep(72, [101, 108, 108, 111], '4', '8');
  }

  lemma PrefixedHello(t: string)
    requires t == "48656c6c6f"
    ensures "0x" + t == "0x48656c6c6f"
  {
  }

  /** The first example of the route's tests, with and without the prefix. */
  lemma DecodeHello()
    ensures DecodeHexToString("0x48656c6c6f") == Some("Hello")
    ensures DecodeHexToString("48656c6c6f") == Some("Hello")
  {
    HelloHexText();
    DecodeHexOfHexText("Hello");
    PrefixedHello(HexText(Encode("Hello")));
  }

  /** Bytes that are not UTF-8 give None: "0xfffe" is the route's own example. */
  lemma DecodeNotUtf8()
    ensures DecodeHexToString("0xfffe") == None
  {
    EncodeAsciiText("fffe");
    assert Encode("fffe") == [102, 102, 102, 101];
    assert HexBytes([102, 102, 102, 101]) == [255, 254];
  }

  // ---------------------------------------------------------------- djb2

  const Modulus64: nat := 0x1_0000_0000_0000_0000

  /** djb2 over bytes: start at 5381, then `h * 33 + byte`, modulo 2^64. */
  function Djb2(b: seq<byte>): (h: nat)
    ensures h < Modulus64
    decreases |b|
  {
    if b == [] then 5381 else (Djb2(b[..|b| - 1]) * 33 + b[|b| - 1] as nat) % Modulus64
  }

  lemma WrapStep(h: nat, c: nat)
    ensures ((h * 33) % Modulus64 + c) % Modulus64 == (h * 33 + c) % Modulus64
  {
    var q := (h * 33) / Modulus64;
    assert h * 33 + c == q * Modulus64 + ((h * 33) % Modulus64 + c);
  }

  /** `hash_url`: `wrapping_mul` then `wrapping_add` for every byte of the URL. */
  method HashUrl(url: string) returns (hash: nat)
    ensures hash == Djb2(Encode(url))
  {
    var bytes := Encode(url);
    hash := 5381;
    assert bytes[..0] == [];
    for i := 0 to |bytes|
      invariant hash == Djb2(bytes[..i])
    {
      assert bytes[..i + 1][..i] == bytes[..i];
      WrapStep(hash, bytes[i] as nat);
      hash := (hash * 33) % Modulus64;
      hash := (hash + bytes[i] as nat) % Modulus64;
    }
    assert bytes[..|bytes|] == bytes;
  }

  /** The unbounded djb2 polynomial, the reference the wrapped value is the residue of. */
  function Djb2Poly(b: seq<byte>): nat
    decreases |b|
  {
    if b == [] then 5381 else Djb2Poly(b[..|b| - 1]) * 33 + b[|b| - 1] as nat
  }

  lemma ResidueStep(a: nat, c: nat)
    ensures ((a % Modulus64) * 33 + c) % Modulus64 == (a * 33 + c) % Modulus64
  {
    var q := a / Modulus64;
    assert a * 33 + c == (q * 33) * Modulus64 + ((a % Modulus64) * 33 + c);
  }

  /** Wrapping at every step gives the residue of the unbounded polynomial. */
  lemma {:induction false} Djb2IsResidue(b: seq<byte>)
    ensures Djb2(b) == Djb2Poly(b) % Modulus64
    decreases |b|
  {
    if b != [] {
      Djb2IsResidue(b[..|b| - 1]);
      ResidueStep(Djb2Poly(b[..|b| - 1]), b[|b| - 1] as nat);
    }
  }

  /** A non-zero multiple of 2^64 is at least 2^64 away from zero. */
  lemma MultipleBound(m: int)
    ensures m >= 1 ==> m * 0x1_0000_0000_0000_0000 >= 0x1_0000_0000_0000_0000
    ensures m <= -1 ==> m * 0x1_0000_0000_0000_0000 <= -0x1_0000_0000_0000_0000
  {
  }

  lemma SmallMultipleIsZero(d: int, m: int)
    requires d == m * Modulus64 && d < Modulus64 && -d < Modulus64
    ensures d == 0
  {
    MultipleBound(m);
  }

  /** `h * 33 + c` modulo 2^64 loses nothing: 33 is odd, so it is invertible modulo 2^64. */
  lemma StepInjective(h1: nat, h2: nat, c: nat)
    requires h1 < Modulus64 && h2 < Modulus64
    requires (h1 * 33 + c) % Modulus64 == (h2 * 33 + c) % Modulus64
    ensures h1 == h2
  {
    var inv := 0xf83e0f83e0f83e1;
    assert 33 * inv == 2 * Modulus64 + 1;
    var d: int := h1 - h2;
    var k: int := (h1 * 33 + c) / Modulus64 - (h2 * 33 + c) / Modulus64;
    assert d * 33 == k * Modulus64;
    assert d * 33 * inv == k * inv * Modulus64;
    assert d * 33 * inv == d * (2 * Modulus64 + 1);
    assert d == (k * inv - 2 * d) * Modulus64;
    SmallMultipleIsZero(d, k * inv - 2 * d);
  }

  /** Equal hashes after a common suffix mean equal hashes before it. */
  lemma {:induction false} Djb2CancelSuffix(p: seq<byte>, q: seq<byte>, s: seq<byte>)
    requires Djb2(p + s) == Djb2(q + s)
    ensures Djb2(p) == Djb2(q)
    decreases |s|
  {
    if s == [] {
      assert p + s == p && q + s == q;
    } else {
      var init := s[..|s| - 1];
      assert (p + s)[..|p + s| - 1] == p + init;
      assert (q + s)[..|q + s| - 1] == q + init;
      StepInjective(Djb2(p + init), Djb2(q + init), s[|s| - 1] as nat);
      Djb2CancelSuffix(p, q, init);
    }
  }

  /** Adding two different small values to the same number gives different residues. */
  lemma AddDistinct(a: nat, x: nat, y: nat)
    requires x < Modulus64 && y < Modulus64 && x != y
    ensures (a + x) % Modulus64 != (a + y) % Modulus64
  {
    var q1, q2 := (a + x) / Modulus64, (a + y) / Modulus64;
    assert a + x == q1 * Modulus64 + (a + x) % Modulus64;
    assert a + y == q2 * Modulus64 + (a + y) % Modulus64;
    MultipleBound(q1 - q2);
  }

  /** Appending one byte to the same prefix: different bytes give different hashes. */
  lemma Djb2LastByte(p: seq<byte>, x: byte, y: byte)
    requires x != y
    ensures Djb2(p + [x]) != Djb2(p + [y])
  {
    assert (p + [x])[..|p|] == p && (p + [y])[..|p|] == p;
    AddDistinct(Djb2(p) * 33, x as nat, y as nat);
  }

  /**
   * Two byte strings of the same length that differ in exactly one byte hash differently,
   * which covers the route's pair of URLs that differ in one letter.
   */
  lemma Djb2OneByteApart(p: seq<byte>, x: byte, y: byte, s: seq<byte>)
    requires x != y
    ensures Djb2(p + [x] + s) != Djb2(p + [y] + s)
  {
    Djb2LastByte(p, x, y);
    if Djb2(p + [x] + s) == Djb2(p + [y] + s) {
      Djb2CancelSuffix(p + [x], p + [y], s);
    }
  }

  lemma {:induction false} EncodeAppend(a: string, b: string)
    ensures Encode(a + b) == Encode(a) + Encode(b)
  {
    if a != [] {
      assert (a + b)[1..] == a[1..] + b;
      EncodeAppend(a[1..], b);
    } else {
      assert a + b == b;
    }
  }

  /** URLs of the same shape that differ in one ASCII character get different hashes. */
  lemma HashUrlOneCharApart(p: string, x: char, y: char, s: string)
    requires x != y && x as int < 0x80 && y as int < 0x80
    ensures Djb2(Encode(p + [x] + s)) != Djb2(Encode(p + [y] + s))
  {
    EncodeAppend(p + [x], s);
    EncodeAppend(p, [x]);
    EncodeAppend(p + [y], s);
    EncodeAppend(p, [y]);
    assert Encode([x]) == [x as int as byte] && Encode([y]) == [y as int as byte];
    Djb2OneByteApart(Encode(p), x as int as byte, y as int as byte, Encode(s));
  }

  // ---------------------------------------------------------------- channels

  const DefaultGroup: string := "On-Chain"

  /** A compact channel object: `n` name, `s` stream URL, `g` group and `l` logo. */
  predicate IsChannelEntry(ch: Json) {
    AsStr(Get(ch, "n")).Some? && AsStr(Get(ch, "s")).Some?
  }

  /** The channel id: "chain-{index}-{hash of the stream URL}". */
  function ChainId(i: nat, streamUrl: string): string {
    "chain-" + NatToString(i) + "-" + NatToString(Djb2(Encode(streamUrl)))
  }

  /** The channel built from entry `i` of the array. */
  function ChainChannel(i: nat, ch: Json): (c: Channel)
    requires IsChannelEntry(ch)
    ensures c.isLive && c.tvgId.None? && c.id == ChainId(i, c.streamUrl)
    ensures c.logoUrl == AsStr(Get(ch, "l"))
    ensures AsStr(Get(ch, "g")).None? ==> c.group == DefaultGroup
  {
    var streamUrl := AsStr(Get(ch, "s")).value;
    Channel(ChainId(i, streamUrl), AsStr(Get(ch, "n")).value, AsStr(Get(ch, "g")).GetOr(DefaultGroup),
            AsStr(Get(ch, "l")), streamUrl, true, None)
  }

  /** The indices from `from` on of the entries kept, in order. */
  function KeptIndices(items: seq<Json>, from: nat): (ks: seq<nat>)
    requires from <= |items|
    ensures forall k :: 0 <= k < |ks| ==> from <= ks[k] < |items| && IsChannelEntry(items[ks[k]])
    ensures forall k, l :: 0 <= k < l < |ks| ==> ks[k] < ks[l]
    ensures forall i :: from <= i < |items| && IsChannelEntry(items[i]) ==> i in ks
    decreases |items| - from
  {
    if from == |items| then []
    else if IsChannelEntry(items[from]) then [from] + KeptIndices(items, from + 1)
    else KeptIndices(items, from + 1)
  }

  /** The `filter_map` over the enumerated array, from index `from` on. */
  function ChainChannelsFrom(items: seq<Json>, from: nat): (cs: seq<Channel>)
    requires from <= |items|
    decreases |items| - from
  {
    if from == |items| then []
    else if IsChannelEntry(items[from]) then [ChainChannel(from, items[from])] + ChainChannelsFrom(items, from + 1)
    else ChainChannelsFrom(items, from + 1)
  }

  /** `parse_chain_channels`: nothing when "c" is missing or not an array. */
  function ParseChainChannels(data: Json): (cs: seq<Channel>)
    ensures AsArray(Get(data, "c")).None? ==> cs == []
  {
    match AsArray(Get(data, "c"))
    case None => []
    case Some(items) => ChainChannelsFrom(items, 0)
  }

  lemma {:induction false} ChainChannelsLength(items: seq<Json>, from: nat)
    requires from <= |items|
    ensures |ChainChannelsFrom(items, from)| == |KeptIndices(items, from)|
    decreases |items| - from
  {
    if from < |items| {
      ChainChannelsLength(items, from + 1);
    }
  }

  /** Channel `k` is built from the `k`-th kept entry, numbered by that entry's index. */
  lemma {:induction false} ChainChannelAt(items: seq<Json>, from: nat, k: nat)
    requires from <= |items| && k < |KeptIndices(items, from)|
    ensures |ChainChannelsFrom(items, from)| == |KeptIndices(items, from)|
    ensures var ks := KeptIndices(items, from);
      ChainChannelsFrom(items, from)[k] == ChainChannel(ks[k], items[ks[k]])
    decreases |items| - from
  {
    ChainChannelsLength(items, from);
    if from < |items| {
      if !IsChannelEntry(items[from]) {
        ChainChannelAt(items, from + 1, k);
      } else if k > 0 {
        ChainChannelAt(items, from + 1, k - 1);
      }
    }
  }

  /**
   * The channels are exactly the entries with a string "n" and a string "s", in array
   * order, each numbered by its position in the unfiltered array, live, without a tvg-id,
   * in group "On-Chain" unless "g" is a string, and without a logo unless "l" is a string.
   */
  lemma ParseChainChannelsSpec(data: Json)
    requires AsArray(Get(data, "c")).Some?
    ensures var items := AsArray(Get(data, "c")).value;
      var cs := ParseChainChannels(data);
      var ks := KeptIndices(items, 0);
      && |cs| == |ks|
      && (forall i :: 0 <= i < |items| ==> (i in ks <==> IsChannelEntry(items[i])))
      && forall k :: 0 <= k < |cs| ==>
        && cs[k].name == AsStr(Get(items[ks[k]], "n")).value
        && cs[k].streamUrl == AsStr(Get(items[ks[k]], "s")).value
        && cs[k].id == ChainId(ks[k], cs[k].streamUrl)
        && cs[k].isLive && cs[k].tvgId.None?
        && (AsStr(Get(items[ks[k]], "g")).None? ==> cs[k].group == DefaultGroup)
        && (AsStr(Get(items[ks[k]], "g")).Some? ==> cs[k].group == AsStr(Get(items[ks[k]], "g")).value)
        && cs[k].logoUrl == AsStr(Get(items[ks[k]], "l"))
  {
    var items := AsArray(Get(data, "c")).value;
    var ks := KeptIndices(items, 0);
    ChainChannelsLength(items, 0);
    forall k | 0 <= k < |ks|
      ensures ParseChainChannels(data)[k] == ChainChannel(ks[k], items[ks[k]])
    {
      ChainChannelAt(items, 0, k);
    }
  }

  // ---------------------------------------------------------------- the scan

  const RemarkPrefix: string := "IPTV:"

  const DefaultPlaylistName: string := "On-Chain Playlist"

  /** What the lookup answers: `{"found": false}`, or the playlist with where it was found. */
  datatype ChainLookup =
    | NotFound
    | Found(name: string, channels: seq<Channel>, blockNumber: Option<nat>, extrinsicHash: string)

  /** The decoded JSON a "remark" param carries, when every decoding step succeeds. */
  function RemarkPayload(param: Json, parse: string -> Option<Json>): (r: Option<Json>)
    ensures r.Some? ==> AsStr(Get(param, "name")) == Some("remark")
    ensures r.Some? ==> AsStr(Get(param, "value")).Some?
  {
    if AsStr(Get(param, "name")) != Some("remark") then None
    else
      match AsStr(Get(param, "value"))
      case None => None
      case Some(hex) =>
        match DecodeHexToString(hex)
        case None => None
        case Some(text) => if !StartsWith(text, RemarkPrefix) then None else parse(text[|RemarkPrefix|..])
  }

  /** The params of an extrinsic: its "params" string read as a JSON array, or none. */
  function ParamsOf(ext: Json, parse: string -> Option<Json>): seq<Json> {
    match AsStr(Get(ext, "params"))
    case None => []
    case Some(text) =>
      match parse(text)
      case Some(Array(items)) => items
      case _ => []
  }

  /** The index of the first present value from `from` on, or `|xs|` when there is none. */
  function FirstSome<T>(xs: seq<Option<T>>, from: nat): (k: nat)
    requires from <= |xs|
    ensures from <= k <= |xs|
    ensures k < |xs| ==> xs[k].Some?
    ensures forall j :: from <= j < k ==> xs[j].None?
    decreases |xs| - from
  {
    if from == |xs| then from
    else if xs[from].Some? then from
    else FirstSome(xs, from + 1)
  }

  /** The payload each param yields. */
  function Remarks(params: seq<Json>, parse: string -> Option<Json>): (os: seq<Option<Json>>)
    ensures |os| == |params|
  {
    seq(|params|, i requires 0 <= i < |params| => RemarkPayload(params[i], parse))
  }

  /** The payload of the first param that yields one. */
  function FirstPayload(params: seq<Json>, parse: string -> Option<Json>): Option<Json> {
    var os := Remarks(params, parse);
    var k := FirstSome(os, 0);
    if k == |params| then None else os[k]
  }

  /** The playlist an extrinsic holds: the payload of the first of its params that yields one. */
  function PayloadOf(ext: Json, parse: string -> Option<Json>): Option<Json> {
    FirstPayload(ParamsOf(ext, parse), parse)
  }

  /** The answer built from the extrinsic that holds the playlist `data`. */
  function FoundIn(ext: Json, data: Json): ChainLookup {
    Found(AsStr(Get(data, "n")).GetOr(DefaultPlaylistName), ParseChainChannels(data),
          AsU64(Get(ext, "block_num")), AsStr(Get(ext, "extrinsic_hash")).GetOr(""))
  }

  /** The playlist each extrinsic holds. */
  function Payloads(exts: seq<Json>, parse: string -> Option<Json>): (os: seq<Option<Json>>)
    ensures |os| == |exts|
  {
    seq(|exts|, i requires 0 <= i < |exts| => PayloadOf(exts[i], parse))
  }

  /** What the scan of a list of extrinsics answers. */
  function ScanResult(exts: seq<Json>, parse: string -> Option<Json>): (r: ChainLookup)
    ensures r.Found? ==>
      (exists k :: 0 <= k < |exts| && PayloadOf(exts[k], parse).Some? && r == FoundIn(exts[k], PayloadOf(exts[k], parse).value))
  {
    var os := Payloads(exts, parse);
    var k := FirstSome(os, 0);
    if k == |exts| then NotFound else FoundIn(exts[k], os[k].value)
  }

  /** The extrinsics of a Subscan response: `data.extrinsics` when it is an array. */
  function ExtrinsicsOf(resp: Json): Option<seq<Json>> {
    match Get(resp, "data")
    case None => None
    case Some(d) => AsArray(Get(d, "extrinsics"))
  }

  /**
   * The inner loop of `fetch_chain_playlist`: the params of one extrinsic in order, skipping
   * every param where a step fails, up to the first `IPTV:` remark that decodes.
   */
  method ScanParams(params: seq<Json>, parse: string -> Option<Json>) returns (payload: Option<Json>)
    ensures payload == FirstPayload(params, parse)
  {
    for p := 0 to |params|
      invariant FirstSome(Remarks(params, parse), 0) == FirstSome(Remarks(params, parse), p)
    {
      var param := params[p];
      if AsStr(Get(param, "name")) != Some("remark") {
        continue;
      }
      var hexValue := AsStr(Get(param, "value"));
      if hexValue.None? {
        continue;
      }
      var decoded := DecodeHexToString(hexValue.value);
      if decoded.None? {
        continue;
      }
      if !StartsWith(decoded.value, RemarkPrefix) {
        continue;
      }
      var jsonPayload := decoded.value[|RemarkPrefix|..];
      var playlistData := parse(jsonPayload);
      if playlistData.None? {
        continue;
      }
      assert FirstSome(Remarks(params, parse), p) == p;
      return playlistData;
    }
    return None;
  }

  /**
   * `fetch_chain_playlist` once the response is in: walks the extrinsics in the order given
   * (newest first), skipping every one whose params are missing or not a JSON array, and
   * answers with the first that holds a playlist.
   */
  method FetchChainPlaylist(resp: Json, parse: string -> Option<Json>) returns (r: ChainLookup)
    ensures ExtrinsicsOf(resp).None? ==> r == NotFound
    ensures ExtrinsicsOf(resp).Some? ==> r == ScanResult(ExtrinsicsOf(resp).value, parse)
  {
    var extrinsics := ExtrinsicsOf(resp);
    if extrinsics.None? {
      return NotFound;
    }
    var exts := extrinsics.value;
    for e := 0 to |exts|
      invariant FirstSome(Payloads(exts, parse), 0) == FirstSome(Payloads(exts, parse), e)
    {
      var ext := exts[e];
      var blockNum := AsU64(Get(ext, "block_num"));
      var extrinsicHash := AsStr(Get(ext, "extrinsic_hash")).GetOr("");
      var paramsStr := AsStr(Get(ext, "params"));
      if paramsStr.None? {
        continue;
      }
      var paramsArray := parse(paramsStr.value);
      if !(paramsArray.Some? && paramsArray.value.Array?) {
        continue;
      }
      var params := paramsArray.value.items;
      assert params == ParamsOf(ext, parse);
      var playlistData := ScanParams(params, parse);
      if playlistData.Some? {
        var channels := ParseChainChannels(playlistData.value);
        var playlistName := AsStr(Get(playlistData.value, "n")).GetOr(DefaultPlaylistName);
        assert FirstSome(Payloads(exts, parse), e) == e;
        return Found(playlistName, channels, blockNum, extrinsicHash);
      }
    }
    return NotFound;
  }

  /** What the handler answers: a 400 status, or a lookup result (a failed request is "not found"). */
  datatype ChainReply = BadRequest | Reply(lookup: ChainLookup)

  /**
   * `get_chain_playlist`, with the Subscan request for an address passed in as `request`
   * (its error case standing for any HTTP or decoding failure).
   */
  method GetChainPlaylist(address: Option<string>, request: string -> Result<Json, string>, parse: string -> Option<Json>)
    returns (r: ChainReply)
    ensures address.None? <==> r == BadRequest
    ensures address.Some? && request(address.value).Err? ==> r == Reply(NotFound)
    ensures address.Some? && request(address.value).Ok? ==>
      r == Reply(if ExtrinsicsOf(request(address.value).value).None? then NotFound
                 else ScanResult(ExtrinsicsOf(request(address.value).value).value, parse))
  {
    if address.None? {
      return BadRequest;
    }
    match request(address.value)
    case Err(_) =>
      r := Reply(NotFound);
    case Ok(resp) =>
      var lookup := FetchChainPlaylist(resp, parse);
      r := Reply(lookup);
  }

  /**
   * The payload of a list of params is the one of the first param that yields one, and
   * there is none exactly when no param yields one.
   */
  lemma FirstPayloadSpec(params: seq<Json>, parse: string -> Option<Json>)
    ensures FirstPayload(params, parse).None? <==>
      forall i :: 0 <= i < |params| ==> RemarkPayload(params[i], parse).None?
    ensures FirstPayload(params, parse).Some? ==>
      exists k :: 0 <= k < |params| && FirstPayload(params, parse) == RemarkPayload(params[k], parse)
        && forall j :: 0 <= j < k ==> RemarkPayload(params[j], parse).None?
  {
    var os := Remarks(params, parse);
    var k := FirstSome(os, 0);
    assert forall j :: 0 <= j < |params| ==> os[j] == RemarkPayload(params[j], parse);
  }

  /**
   * The scan answers "not found" exactly when no extrinsic holds a playlist, and otherwise
   * with the first extrinsic that holds one.
   */
  lemma ScanResultSpec(exts: seq<Json>, parse: string -> Option<Json>)
    ensures ScanResult(exts, parse).NotFound? <==>
      forall j :: 0 <= j < |exts| ==> PayloadOf(exts[j], parse).None?
    ensures ScanResult(exts, parse).Found? ==>
      exists k :: 0 <= k < |exts| && PayloadOf(exts[k], parse).Some?
        && (forall j :: 0 <= j < k ==> PayloadOf(exts[j], parse).None?)
        && ScanResult(exts, parse) == FoundIn(exts[k], PayloadOf(exts[k], parse).value)
  {
    var os := Payloads(exts, parse);
    var k := FirstSome(os, 0);
    assert forall j :: 0 <= j < |exts| ==> os[j] == PayloadOf(exts[j], parse);
  }
}
