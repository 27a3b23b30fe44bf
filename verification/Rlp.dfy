/** The transaction writer's RLP encoders against a decoder, after Appendix B of the Ethereum Yellow Paper. */
module Rlp {
  import opened Base

  // ----- Encoders -----

  /** Drops leading zero bytes, keeping the last byte. */
  function Trim(b: Bytes): (r: Bytes) {
    if |b| <= 1 || b[0] != 0 then b else Trim(b[1..])
  }

  /** A scalar of a fixed byte width. */
  function EncodeScalar(val: nat, width: nat): (r: Bytes)
    requires 0 < width <= 32
  {
    if val == 0 then [0x80]
    else
      var trimmed := Trim(BigEndian(val, width));
      TrimShortens(BigEndian(val, width));
      if |trimmed| == 1 && trimmed[0] < 0x80 then trimmed else [0x80 + |trimmed|] + trimmed
  }

  lemma {:induction false} TrimShortens(b: Bytes)
    ensures |Trim(b)| <= |b|
    ensures b != [] ==> Trim(b) != []
  {
    if !(|b| <= 1 || b[0] != 0) { TrimShortens(b[1..]); }
  }

  function EncodeLength(len: U64): (r: Bytes)
    ensures 0 < |r| <= 8
  {
    TrimShortens(BigEndian(len, 8));
    Trim(BigEndian(len, 8))
  }

  function EncodeBytes(data: Bytes): (r: Bytes)
    requires |data| < TWO_64
  {
    if |data| == 1 && data[0] < 0x80 then data
    else if |data| < 56 then [0x80 + |data|] + data
    else
      var len := EncodeLength(|data|);
      [0xb7 + |len|] + len + data
  }

  function ListHeader(n: U64): (r: Bytes) {
    if n < 56 then [0xc0 + n]
    else
      var len := EncodeLength(n);
      [0xf7 + |len|] + len
  }

  function EncodeList(items: seq<Bytes>): (r: Bytes)
    requires |Concat(items)| < TWO_64
  {
    ListHeader(|Concat(items)|) + Concat(items)
  }

  /** The list writer, which appends to an output buffer. */
  method RlpEncodeList(buffer: Bytes, items: seq<Bytes>) returns (out: Bytes)
    requires |Concat(items)| < TWO_64
    ensures out == buffer + EncodeList(items)
  {
    out := buffer;
    var payload: Bytes := [];
    for i := 0 to |items|
      invariant payload + Concat(items[i..]) == Concat(items)
    {
      assert items[i..][1..] == items[i + 1..];
      payload := payload + items[i];
    }
    assert payload == Concat(items);
    if |payload| < 56 {
      out := out + [0xc0 + |payload|];
    } else {
      var len := EncodeLength(|payload|);
      out := out + [0xf7 + |len|];
      out := out + len;
    }
    out := out + payload;
  }

  // ----- Scalars are minimal big-endian strings -----

  /** The shortest big-endian string of a number; empty for zero. */
  function Minimal(n: nat): (r: Bytes) {
    if n == 0 then [] else Minimal(n / 256) + [n % 256]
  }

  lemma {:induction false} MinimalInverts(n: nat)
    ensures FromBigEndian(Minimal(n)) == n
    ensures n > 0 ==> Minimal(n) != [] && Minimal(n)[0] != 0
  {
    if n > 0 {
      MinimalInverts(n / 256);
      assert Minimal(n)[..|Minimal(n)| - 1] == Minimal(n / 256);
    }
  }

  lemma {:induction false} MinimalLength(n: nat, width: nat)
    requires n < Pow(256, width)
    ensures |Minimal(n)| <= width
    decreases width
  {
    if n > 0 {
      assert width > 0;
      MinimalLength(n / 256, width - 1);
    }
  }

  lemma {:induction false} TrimAppend(b: Bytes, d: Byte)
    requires b != [] && Trim(b) != [] && Trim(b)[0] != 0
    ensures Trim(b + [d]) == Trim(b) + [d]
  {
    if |b| > 1 && b[0] == 0 {
      assert (b + [d])[1..] == b[1..] + [d];
      TrimAppend(b[1..], d);
    }
  }

  lemma {:induction false} TrimZeros(width: nat, d: Byte)
    ensures Trim(BigEndian(0, width) + [d]) == [d]
  {
    if width > 0 {
      ZeroBytes(width);
      ZeroBytes(width - 1);
      assert BigEndian(0, width) + [d] == [0] + (BigEndian(0, width - 1) + [d]);
      assert (BigEndian(0, width) + [d])[1..] == BigEndian(0, width - 1) + [d];
      TrimZeros(width - 1, d);
    }
  }

  lemma {:induction false} ZeroBytes(width: nat)
    ensures BigEndian(0, width) == seq(width, _ => 0)
  {
    if width > 0 { ZeroBytes(width - 1); }
  }

  lemma {:induction false} TrimIsMinimal(n: nat, width: nat)
    requires 0 < n < Pow(256, width)
    ensures Trim(BigEndian(n, width)) == Minimal(n)
    decreases width
  {
    MinimalInverts(n / 256);
    if n / 256 == 0 {
      TrimZeros(width - 1, n);
    } else {
      TrimIsMinimal(n / 256, width - 1);
      TrimAppend(BigEndian(n / 256, width - 1), n % 256);
    }
  }

  /** Whatever the width, a scalar is encoded as its minimal byte string. */
  lemma ScalarIsMinimal(n: nat, width: nat)
    requires 0 < width <= 32 && n < Pow(256, width)
    ensures |Minimal(n)| < TWO_64 && EncodeScalar(n, width) == EncodeBytes(Minimal(n))
  {
    MinimalLength(n, width);
    if n > 0 {
      TrimIsMinimal(n, width);
      MinimalInverts(n);
    }
  }

  /** The 64-bit and the 256-bit encoder agree wherever both apply. */
  lemma ScalarsAgree(n: U64)
    ensures EncodeScalar(n, 8) == EncodeScalar(n, 32)
  {
    PowersOf256();
    ScalarIsMinimal(n, 8);
    ScalarIsMinimal(n, 32);
  }

  // ----- Decoder -----

  /** A payload and what follows it. */
  datatype Split = Split(payload: Bytes, rest: Bytes)

  function Take(s: Bytes, n: nat): (r: Option<Split>) {
    if n <= |s| then Some(Split(s[..n], s[n..])) else None
  }

  /** A payload whose length is itself written in `k` bytes. */
  function TakeLong(s: Bytes, k: nat): (r: Option<Split>) {
    if k <= |s| then Take(s[k..], FromBigEndian(s[..k])) else None
  }

  /** The first string of an input. */
  function DecodeString(s: Bytes): (r: Option<Split>) {
    if s == [] then None
    else if s[0] < 0x80 then Some(Split(s[..1], s[1..]))
    else if s[0] <= 0xb7 then Take(s[1..], s[0] - 0x80)
    else if s[0] <= 0xbf then TakeLong(s[1..], s[0] - 0xb7)
    else None
  }

  /** The payload of the list an input starts with. */
  function DecodeList(s: Bytes): (r: Option<Split>) {
    if s == [] || s[0] < 0xc0 then None
    else if s[0] <= 0xf7 then Take(s[1..], s[0] - 0xc0)
    else TakeLong(s[1..], s[0] - 0xf7)
  }

  /** All strings of a list payload. */
  function DecodeItems(s: Bytes): (r: Option<seq<Bytes>>)
    decreases |s|
  {
    if s == [] then Some([])
    else
      match DecodeString(s)
      case None => None
      case Some(first) =>
        if |first.rest| >= |s| then None
        else
          match DecodeItems(first.rest)
          case None => None
          case Some(others) => Some([first.payload] + others)
  }

  // ----- The decoder inverts the encoders -----

  lemma TakeExact(a: Bytes, rest: Bytes)
    ensures Take(a + rest, |a|) == Some(Split(a, rest))
  {
    assert (a + rest)[..|a|] == a && (a + rest)[|a|..] == rest;
  }

  lemma LengthDecodes(n: U64)
    requires n > 0
    ensures FromBigEndian(EncodeLength(n)) == n
  {
    PowersOf256();
    TrimIsMinimal(n, 8);
    MinimalInverts(n);
  }

  lemma TakeLongExact(a: Bytes, rest: Bytes)
    requires 0 < |a| < TWO_64
    ensures var len := EncodeLength(|a|); TakeLong(len + (a + rest), |len|) == Some(Split(a, rest))
  {
    var len := EncodeLength(|a|);
    LengthDecodes(|a|);
    var s := len + (a + rest);
    assert s[..|len|] == len && s[|len|..] == a + rest;
    TakeExact(a, rest);
  }

  lemma ShortStringDecodes(data: Bytes, rest: Bytes)
    requires |data| < 56
    ensures DecodeString([0x80 + |data|] + data + rest) == Some(Split(data, rest))
  {
    var s := [0x80 + |data|] + data + rest;
    assert s[0] == 0x80 + |data| && s[1..] == data + rest;
    TakeExact(data, rest);
  }

  lemma LongStringDecodes(data: Bytes, rest: Bytes)
    requires 0 < |data| < TWO_64
    ensures var len := EncodeLength(|data|); DecodeString([0xb7 + |len|] + len + data + rest) == Some(Split(data, rest))
  {
    var len := EncodeLength(|data|);
    var s := [0xb7 + |len|] + len + data + rest;
    assert s[0] == 0xb7 + |len| && s[1..] == len + (data + rest);
    TakeLongExact(data, rest);
  }

  /** Reading back an encoded string gives it and leaves exactly what followed. */
  lemma StringRoundTrip(data: Bytes, rest: Bytes)
    requires |data| < TWO_64
    ensures DecodeString(EncodeBytes(data) + rest) == Some(Split(data, rest))
  {
    if |data| == 1 && data[0] < 0x80 {
      var s := data + rest;
      assert s[..1] == data && s[1..] == rest;
    } else if |data| < 56 {
      ShortStringDecodes(data, rest);
    } else {
      LongStringDecodes(data, rest);
    }
  }

  /** String encodings are prefix-free and injective. */
  lemma StringsArePrefixFree(a: Bytes, b: Bytes, rest: Bytes, rest': Bytes)
    requires |a| < TWO_64 && |b| < TWO_64
    ensures EncodeBytes(a) + rest == EncodeBytes(b) + rest' <==> a == b && rest == rest'
  {
    StringRoundTrip(a, rest);
    StringRoundTrip(b, rest');
  }

  lemma ShortListDecodes(payload: Bytes, rest: Bytes)
    requires |payload| < 56
    ensures DecodeList([0xc0 + |payload|] + payload + rest) == Some(Split(payload, rest))
  {
    var s := [0xc0 + |payload|] + payload + rest;
    assert s[0] == 0xc0 + |payload| && s[1..] == payload + rest;
    TakeExact(payload, rest);
  }

  lemma LongListDecodes(payload: Bytes, rest: Bytes)
    requires 0 < |payload| < TWO_64
    ensures var len := EncodeLength(|payload|);
            DecodeList([0xf7 + |len|] + len + payload + rest) == Some(Split(payload, rest))
  {
    var len := EncodeLength(|payload|);
    var s := [0xf7 + |len|] + len + payload + rest;
    assert s[0] == 0xf7 + |len| && s[1..] == len + (payload + rest);
    TakeLongExact(payload, rest);
  }

  lemma ListRoundTrip(items: seq<Bytes>, rest: Bytes)
    requires |Concat(items)| < TWO_64
    ensures DecodeList(EncodeList(items) + rest) == Some(Split(Concat(items), rest))
  {
    var payload := Concat(items);
    if |payload| < 56 {
      ShortListDecodes(payload, rest);
    } else {
      LongListDecodes(payload, rest);
    }
  }

  predicate AllWritable(fields: seq<Bytes>) {
    forall i :: 0 <= i < |fields| ==> |fields[i]| < TWO_64
  }

  function EncodeAll(fields: seq<Bytes>): (r: seq<Bytes>)
    requires AllWritable(fields)
  {
    if fields == [] then [] else [EncodeBytes(fields[0])] + EncodeAll(fields[1..])
  }

  lemma {:induction false} EncodeAllAt(fields: seq<Bytes>, i: nat)
    requires AllWritable(fields) && i < |fields|
    ensures |EncodeAll(fields)| == |fields| && EncodeAll(fields)[i] == EncodeBytes(fields[i])
  {
    if |fields| > 1 { EncodeAllAt(fields[1..], if i == 0 then 0 else i - 1); }
  }

  lemma ItemsStep(first: Bytes, rest: Bytes, others: seq<Bytes>)
    requires |first| < TWO_64 && DecodeItems(rest) == Some(others)
    ensures DecodeItems(EncodeBytes(first) + rest) == Some([first] + others)
  {
    StringRoundTrip(first, rest);
    assert EncodeBytes(first) != [];
  }

  lemma {:induction false} ItemsRoundTrip(fields: seq<Bytes>)
    requires AllWritable(fields)
    ensures DecodeItems(Concat(EncodeAll(fields))) == Some(fields)
  {
    if fields != [] {
      ItemsRoundTrip(fields[1..]);
      ItemsFirst(fields);
    }
  }

  lemma ItemsFirst(fields: seq<Bytes>)
    requires AllWritable(fields) && fields != [] && DecodeItems(Concat(EncodeAll(fields[1..]))) == Some(fields[1..])
    ensures DecodeItems(Concat(EncodeAll(fields))) == Some(fields)
  {
    var rest := Concat(EncodeAll(fields[1..]));
    FirstItem(fields);
    ItemsStep(fields[0], rest, fields[1..]);
    HeadTail(fields);
  }

  lemma FirstItem(fields: seq<Bytes>)
    requires AllWritable(fields) && fields != []
    ensures Concat(EncodeAll(fields)) == EncodeBytes(fields[0]) + Concat(EncodeAll(fields[1..]))
  {
    assert EncodeAll(fields)[1..] == EncodeAll(fields[1..]);
  }

  // ----- Legacy transactions -----

  /** The nine fields of a signed transaction, or of the list that is hashed for signing. */
  datatype LegacyTx = LegacyTx(
    nonce: U64, gasPrice: U256, gasLimit: U64, to: Bytes, value: U256, data: Bytes, v: U64, r: U256, s: U256)

  /** The encoded fields as the writer lists them. */
  function TxItems(t: LegacyTx): (r: seq<Bytes>)
    requires |t.to| < TWO_64 && |t.data| < TWO_64
  {
    [EncodeScalar(t.nonce, 8), EncodeScalar(t.gasPrice, 32), EncodeScalar(t.gasLimit, 8), EncodeBytes(t.to),
     EncodeScalar(t.value, 32), EncodeBytes(t.data), EncodeScalar(t.v, 8), EncodeScalar(t.r, 32), EncodeScalar(t.s, 32)]
  }

  function TxFields(t: LegacyTx): (r: seq<Bytes>) {
    [Minimal(t.nonce), Minimal(t.gasPrice), Minimal(t.gasLimit), t.to,
     Minimal(t.value), t.data, Minimal(t.v), Minimal(t.r), Minimal(t.s)]
  }

  /** What is hashed before signing, with the chain id in place of the signature. */
  function Unsigned(t: LegacyTx, chainId: U64): (r: LegacyTx) {
    t.(v := chainId, r := 0, s := 0)
  }

  predicate Writable(t: LegacyTx) {
    |t.to| == 20 && |t.data| < TWO_64 && |Concat(TxItems(t))| < TWO_64
  }

  lemma SmallNumbers(n: U64, m: U256)
    ensures |Minimal(n)| <= 8 && |Minimal(m)| <= 32
    ensures EncodeScalar(n, 8) == EncodeBytes(Minimal(n)) && EncodeScalar(m, 32) == EncodeBytes(Minimal(m))
  {
    PowersOf256();
    ScalarIsMinimal(n, 8);
    ScalarIsMinimal(m, 32);
    MinimalLength(n, 8);
    MinimalLength(m, 32);
  }

  lemma NineElements(e: seq<Bytes>)
    requires |e| == 9
    ensures e == [e[0], e[1], e[2], e[3], e[4], e[5], e[6], e[7], e[8]]
  {}

  lemma FieldLengths(t: LegacyTx)
    requires |t.to| == 20 && |t.data| < TWO_64
    ensures AllWritable(TxFields(t))
  {
    SmallNumbers(t.nonce, t.gasPrice);
    SmallNumbers(t.gasLimit, t.value);
    SmallNumbers(t.v, t.r);
    SmallNumbers(t.v, t.s);
  }

  lemma TxItemsAreStrings(t: LegacyTx)
    requires |t.to| == 20 && |t.data| < TWO_64
    ensures AllWritable(TxFields(t)) && TxItems(t) == EncodeAll(TxFields(t))
  {
    FieldLengths(t);
    var f := TxFields(t);
    var e := EncodeAll(f);
    forall i | 0 <= i < 9 ensures |e| == 9 && e[i] == EncodeBytes(f[i]) { EncodeAllAt(f, i); }
    assert |e| == 9 by { EncodeAllAt(f, 0); }
    NineElements(e);
    SmallNumbers(t.nonce, t.gasPrice);
    SmallNumbers(t.gasLimit, t.value);
    SmallNumbers(t.v, t.r);
    SmallNumbers(t.v, t.s);
  }

  lemma FieldsDetermineTx(t: LegacyTx, u: LegacyTx)
    requires TxFields(t) == TxFields(u)
    ensures t == u
  {
    var a, b := TxFields(t), TxFields(u);
    MinimalInjective(t.nonce, u.nonce);
    MinimalInjective(t.gasPrice, u.gasPrice);
    MinimalInjective(t.gasLimit, u.gasLimit);
    MinimalInjective(t.value, u.value);
    MinimalInjective(t.v, u.v);
    MinimalInjective(t.r, u.r);
    MinimalInjective(t.s, u.s);
    assert a[0] == b[0] && a[1] == b[1] && a[2] == b[2] && a[3] == b[3] && a[4] == b[4];
    assert a[5] == b[5] && a[6] == b[6] && a[7] == b[7] && a[8] == b[8];
  }

  lemma MinimalInjective(m: nat, n: nat)
    ensures Minimal(m) == Minimal(n) <==> m == n
  {
    MinimalInverts(m);
    MinimalInverts(n);
  }

  /** Decoding a written transaction gives its fields back, so equal encodings mean equal transactions. */
  lemma TxRoundTrip(t: LegacyTx)
    requires Writable(t)
    ensures DecodeList(EncodeList(TxItems(t))) == Some(Split(Concat(TxItems(t)), []))
    ensures DecodeItems(Concat(TxItems(t))) == Some(TxFields(t))
  {
    TxItemsAreStrings(t);
    ItemsRoundTrip(TxFields(t));
    ListRoundTrip(TxItems(t), []);
    assert EncodeList(TxItems(t)) + [] == EncodeList(TxItems(t));
  }

  lemma EncodingDeterminesTx(t: LegacyTx, u: LegacyTx)
    requires Writable(t) && Writable(u)
    ensures EncodeList(TxItems(t)) == EncodeList(TxItems(u)) <==> t == u
  {
    if EncodeList(TxItems(t)) == EncodeList(TxItems(u)) {
      TxRoundTrip(t);
      TxRoundTrip(u);
      FieldsDetermineTx(t, u);
    }
  }

  /** What is signed fixes the chain as well as the six transaction fields. */
  lemma SigningPayloadDeterminesChain(t: LegacyTx, u: LegacyTx, c: U64, d: U64)
    requires Writable(Unsigned(t, c)) && Writable(Unsigned(u, d))
    requires EncodeList(TxItems(Unsigned(t, c))) == EncodeList(TxItems(Unsigned(u, d)))
    ensures c == d && t.nonce == u.nonce && t.gasPrice == u.gasPrice && t.gasLimit == u.gasLimit
    ensures t.to == u.to && t.value == u.value && t.data == u.data
  {
    EncodingDeterminesTx(Unsigned(t, c), Unsigned(u, d));
  }
}
