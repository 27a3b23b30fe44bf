/** The versioned, tagged encoding of a validator's P2P address seed, and its decoder. */
module P2pAddress {
  import opened Base

  const MAX_P2P_ADDRESS_ENCODED_LEN: nat := 512

  type Packed4 = b: Bytes | |b| == 4 witness seq(4, _ => 0)
  type Packed16 = b: Bytes | |b| == 16 witness seq(16, _ => 0)

  /** An address literal, already parsed. */
  datatype Ip = V4(packed4: Packed4) | V6(packed16: Packed16)

  datatype Socket = Socket(ip: Ip, port: int)

  /** `host` is the host name's bytes; only ASCII survives validation. */
  datatype Ingress = SocketIngress(socket: Socket) | DnsIngress(host: Bytes, port: int)

  datatype Address = Symmetric(socket: Socket) | Asymmetric(ingress: Ingress, egress: Socket)

  datatype SeedError = InvalidPort | InvalidHostname | PayloadTooLong

  // ----- Validation -----

  predicate ValidPort(port: int) {
    0 < port <= 65535
  }

  function Labels(host: Bytes): (r: seq<Bytes>)
    ensures |r| > 0
  {
    if host == [] then [[]]
    else
      var others := Labels(host[1..]);
      if host[0] == '.' as int then [[]] + others else [[host[0]] + others[0]] + others[1..]
  }

  predicate LabelByte(b: Byte) {
    || '0' as int <= b <= '9' as int || 'a' as int <= b <= 'z' as int || 'A' as int <= b <= 'Z' as int
    || b == '-' as int
  }

  predicate ValidLabel(part: Bytes) {
    && 0 < |part| <= 63
    && part[0] != '-' as int && part[|part| - 1] != '-' as int
    && forall i :: 0 <= i < |part| ==> LabelByte(part[i])
  }

  predicate ValidHostname(host: Bytes) {
    && 0 < |host| <= 253
    && forall i :: 0 <= i < |Labels(host)| ==> ValidLabel(Labels(host)[i])
  }

  // ----- Encoding -----

  function EncodeSocket(s: Socket): (r: Result<Bytes, SeedError>) {
    if !ValidPort(s.port) then Err(InvalidPort)
    else
      match s.ip
      case V4(packed) => Ok([4] + packed + BigEndian(s.port, 2))
      case V6(packed) => Ok([6] + packed + BigEndian(s.port, 2))
  }

  /** Length-prefixed host name and port. */
  function DnsBody(host: Bytes, port: int): (r: Bytes)
    requires port >= 0
    ensures |r| == |host| + 4
  {
    BigEndian(|host|, 2) + host + BigEndian(port, 2)
  }

  function EncodeIngress(ingress: Ingress): (r: Result<Bytes, SeedError>) {
    match ingress
    case SocketIngress(s) =>
      (match EncodeSocket(s)
       case Err(e) => Err(e)
       case Ok(encoded) => Ok([0] + encoded))
    case DnsIngress(host, port) =>
      if !ValidPort(port) then Err(InvalidPort)
      else if !ValidHostname(host) then Err(InvalidHostname)
      else Ok([1] + DnsBody(host, port))
  }

  function EncodePayload(a: Address): (r: Result<Bytes, SeedError>) {
    match a
    case Symmetric(s) =>
      (match EncodeSocket(s)
       case Err(e) => Err(e)
       case Ok(encoded) => Ok([0] + encoded))
    case Asymmetric(ingress, egress) =>
      match EncodeIngress(ingress)
      case Err(e) => Err(e)
      case Ok(i) =>
        match EncodeSocket(egress)
        case Err(e) => Err(e)
        case Ok(o) => Ok([1] + i + o)
  }

  function EncodeAddress(a: Address): (r: Result<Bytes, SeedError>) {
    match EncodePayload(a)
    case Err(e) => Err(e)
    case Ok(payload) => if |payload| > MAX_P2P_ADDRESS_ENCODED_LEN then Err(PayloadTooLong) else Ok(payload)
  }

  // ----- Decoding -----

  /** A decoded value and the bytes after it. */
  datatype Parsed<T> = Parsed(value: T, rest: Bytes)

  function DecodeSocket(s: Bytes): (r: Option<Parsed<Socket>>) {
    if |s| >= 7 && s[0] == 4 then Some(Parsed(Socket(V4(s[1..5]), FromBigEndian(s[5..7])), s[7..]))
    else if |s| >= 19 && s[0] == 6 then Some(Parsed(Socket(V6(s[1..17]), FromBigEndian(s[17..19])), s[19..]))
    else None
  }

  function DecodeDns(s: Bytes): (r: Option<Parsed<Ingress>>) {
    if |s| < 2 then None
    else
      var n := FromBigEndian(s[..2]);
      if |s| < 4 + n then None
      else Some(Parsed(DnsIngress(s[2..2 + n], FromBigEndian(s[2 + n..4 + n])), s[4 + n..]))
  }

  function DecodeIngress(s: Bytes): (r: Option<Parsed<Ingress>>) {
    if s == [] then None
    else if s[0] == 0 then
      match DecodeSocket(s[1..])
      case None => None
      case Some(p) => Some(Parsed(SocketIngress(p.value), p.rest))
    else if s[0] == 1 then DecodeDns(s[1..])
    else None
  }

  function DecodeAddress(s: Bytes): (r: Option<Parsed<Address>>) {
    if s == [] then None
    else if s[0] == 0 then
      match DecodeSocket(s[1..])
      case None => None
      case Some(p) => Some(Parsed(Symmetric(p.value), p.rest))
    else if s[0] == 1 then WithEgress(DecodeIngress(s[1..]))
    else None
  }

  /** Reads the egress socket after an ingress. */
  function WithEgress(ingress: Option<Parsed<Ingress>>): (r: Option<Parsed<Address>>) {
    match ingress
    case None => None
    case Some(i) =>
      match DecodeSocket(i.rest)
      case None => None
      case Some(o) => Some(Parsed(Asymmetric(i.value, o.value), o.rest))
  }

  // ----- The decoder inverts the encoder -----

  lemma PortRoundTrip(port: int)
    requires 0 <= port <= 65535
    ensures FromBigEndian(BigEndian(port, 2)) == port
  {
    PowersOf256();
    BigEndianInverts(port, 2);
  }

  lemma SocketRoundTrip(s: Socket, rest: Bytes)
    requires EncodeSocket(s).Ok?
    ensures DecodeSocket(EncodeSocket(s).value + rest) == Some(Parsed(s, rest))
    ensures |EncodeSocket(s).value| <= 19
  {
    PortRoundTrip(s.port);
    var e := EncodeSocket(s).value + rest;
    var port := BigEndian(s.port, 2);
    match s.ip {
      case V4(packed) =>
        assert e[1..5] == packed && e[5..7] == port && e[7..] == rest;
      case V6(packed) =>
        assert e[1..17] == packed && e[17..19] == port && e[19..] == rest;
    }
  }

  lemma DnsRoundTrip(host: Bytes, port: int, rest: Bytes)
    requires |host| <= 253 && ValidPort(port)
    ensures DecodeDns(DnsBody(host, port) + rest) == Some(Parsed(DnsIngress(host, port), rest))
  {
    PortRoundTrip(|host|);
    PortRoundTrip(port);
    var n := |host|;
    var s := DnsBody(host, port) + rest;
    assert s[..2] == BigEndian(n, 2) && s[2..2 + n] == host;
    assert s[2 + n..4 + n] == BigEndian(port, 2) && s[4 + n..] == rest;
  }

  lemma SocketIngressRoundTrip(s: Socket, rest: Bytes)
    requires EncodeSocket(s).Ok?
    ensures DecodeIngress([0] + EncodeSocket(s).value + rest) == Some(Parsed(SocketIngress(s), rest))
  {
    var encoded := EncodeSocket(s).value;
    SocketRoundTrip(s, rest);
    assert ([0] + encoded + rest)[1..] == encoded + rest;
  }

  lemma DnsTag(body: Bytes, rest: Bytes)
    ensures DecodeIngress([1] + body + rest) == DecodeDns(body + rest)
  {
    var e := [1] + body + rest;
    assert e[0] == 1 && e[1..] == body + rest;
  }

  lemma IngressRoundTrip(ingress: Ingress, rest: Bytes)
    requires EncodeIngress(ingress).Ok?
    ensures DecodeIngress(EncodeIngress(ingress).value + rest) == Some(Parsed(ingress, rest))
    ensures |EncodeIngress(ingress).value| <= 258
  {
    if ingress.SocketIngress? {
      SocketIngressRoundTrip(ingress.socket, rest);
      SocketRoundTrip(ingress.socket, rest);
    } else {
      DnsTag(DnsBody(ingress.host, ingress.port), rest);
      DnsRoundTrip(ingress.host, ingress.port, rest);
    }
  }

  lemma TagOne(i: Bytes, o: Bytes, rest: Bytes)
    ensures DecodeAddress([1] + i + o + rest) == WithEgress(DecodeIngress(i + (o + rest)))
  {
    var e := [1] + i + o + rest;
    assert e[0] == 1 && e[1..] == i + (o + rest);
  }

  lemma PayloadRoundTrip(a: Address, rest: Bytes)
    requires EncodePayload(a).Ok?
    ensures DecodeAddress(EncodePayload(a).value + rest) == Some(Parsed(a, rest))
    ensures |EncodePayload(a).value| <= 278
  {
    match a {
      case Symmetric(s) =>
        SocketRoundTrip(s, rest);
        assert (EncodePayload(a).value + rest)[1..] == EncodeSocket(s).value + rest;
      case Asymmetric(ingress, egress) =>
        var i, o := EncodeIngress(ingress).value, EncodeSocket(egress).value;
        SocketRoundTrip(egress, rest);
        IngressRoundTrip(ingress, o + rest);
        TagOne(i, o, rest);
        assert EncodePayload(a).value == [1] + i + o;
    }
  }

  /** The length limit rejects nothing: a seed is accepted exactly when its ports and host name are valid. */
  lemma AcceptedExactly(a: Address)
    ensures EncodeAddress(a) == EncodePayload(a)
    ensures EncodeAddress(a).Ok? <==>
              match a
              case Symmetric(s) => ValidPort(s.port)
              case Asymmetric(SocketIngress(s), o) => ValidPort(s.port) && ValidPort(o.port)
              case Asymmetric(DnsIngress(host, port), o) => ValidPort(port) && ValidHostname(host) && ValidPort(o.port)
  {
    if EncodePayload(a).Ok? { PayloadRoundTrip(a, []); }
  }

  /** Every accepted seed is recovered from its encoding, whatever follows it. */
  lemma AddressRoundTrip(a: Address, rest: Bytes)
    requires EncodeAddress(a).Ok?
    ensures DecodeAddress(EncodeAddress(a).value + rest) == Some(Parsed(a, rest))
  {
    PayloadRoundTrip(a, rest);
  }
}
