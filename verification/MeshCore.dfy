/** The MeshCore packet decoder of internal/meshcore/decode.go, with the encoder it inverts. */
module MeshCore {
  import opened Wrappers
  import opened Text
  import opened Hex

  datatype DecodeError =
    | EmptyPayload | BadHex | TooShort | UnsupportedVersion | MissingTransportCodes
    | MissingPathLength | BadHopSize | PathOutOfBounds

  datatype Packet = Packet(
    header: byte,
    payloadVersion: nat,
    payloadType: nat,
    routeType: nat,
    transportCodes: Option<(nat, nat)>,
    pathLen: nat,
    bytesPerHop: nat,
    pathByteLength: nat,
    path: seq<string>,
    pathHex: string,
    payloadHex: string,
    payloadBytes: seq<byte>)

  // ----- The bit fields of the two packed bytes, most significant field first -----

  function Version(header: byte): nat { header / 64 }
  function PayloadType(header: byte): nat { header / 4 % 16 }
  function RouteType(header: byte): nat { header % 4 }

  /** Route types 0 and 3 carry two transport codes. */
  predicate HasTransportCodes(header: byte) {
    RouteType(header) == 0 || RouteType(header) == 3
  }

  /** The low six bits count hops; the top two hold one less than the bytes per hop, where the code 3 is invalid. */
  function DecodePathLenByte(value: byte): Result<(nat, nat), DecodeError> {
    var bytesPerHop := value / 64 + 1;
    if bytesPerHop < 1 || bytesPerHop > 3 then Err(BadHopSize) else Ok((value % 64, bytesPerHop))
  }

  function EncodePathLenByte(pathLen: nat, bytesPerHop: nat): byte
    requires pathLen < 64 && 1 <= bytesPerHop <= 3
  {
    (bytesPerHop - 1) * 64 + pathLen
  }

  lemma PathLenByteRoundTrip(value: byte, pathLen: nat, bytesPerHop: nat)
    ensures DecodePathLenByte(value).Ok? <==> value / 64 != 3
    ensures DecodePathLenByte(value).Ok? ==>
              var (n, k) := DecodePathLenByte(value).value;
              n < 64 && 1 <= k <= 3 && EncodePathLenByte(n, k) == value
    ensures pathLen < 64 && 1 <= bytesPerHop <= 3 ==>
              DecodePathLenByte(EncodePathLenByte(pathLen, bytesPerHop)) == Ok((pathLen, bytesPerHop))
  {
  }

  // ----- Hops -----

  /** Consecutive groups of k bytes, as hex texts. */
  function Hops(bytes: seq<byte>, k: nat): (hops: seq<string>)
    requires k > 0
  {
    if |bytes| < k then [] else [Encode(bytes[..k])] + Hops(bytes[k..], k)
  }

  function Flatten(texts: seq<string>): string {
    if texts == [] then "" else texts[0] + Flatten(texts[1..])
  }

  lemma FlattenCons(x: string, rest: seq<string>)
    ensures Flatten([x] + rest) == x + Flatten(rest)
  {
    assert ([x] + rest)[1..] == rest;
  }

  lemma EncodeSplit(bytes: seq<byte>, k: nat)
    requires k <= |bytes|
    ensures Encode(bytes) == Encode(bytes[..k]) + Encode(bytes[k..])
  {
    assert bytes == bytes[..k] + bytes[k..];
    EncodeConcat(bytes[..k], bytes[k..]);
  }

  /** The hops are the path, cut up: no byte is lost or shared, and each hop has its k bytes. */
  lemma {:induction false} HopsConcatenate(bytes: seq<byte>, n: nat, k: nat)
    requires k > 0 && |bytes| == n * k
    ensures Flatten(Hops(bytes, k)) == Encode(bytes)
    ensures |Hops(bytes, k)| == n
    ensures forall hop | hop in Hops(bytes, k) :: |hop| == 2 * k
  {
    if n > 0 {
      NextHop(n - 1, n, k);
      HopsConcatenate(bytes[k..], n - 1, k);
      FlattenCons(Encode(bytes[..k]), Hops(bytes[k..], k));
      EncodeSplit(bytes, k);
    }
  }

  // ----- The decoder as a function -----

  function U16(low: byte, high: byte): nat {
    low as int + 256 * (high as int)
  }

  function PacketOf(header: byte, codes: Option<(nat, nat)>, pathLen: nat, bytesPerHop: nat,
                    pathBytes: seq<byte>, payloadBytes: seq<byte>): Packet
    requires bytesPerHop > 0
  {
    Packet(
      header, Version(header), PayloadType(header), RouteType(header), codes,
      pathLen, bytesPerHop, pathLen * bytesPerHop, Hops(pathBytes, bytesPerHop), Encode(pathBytes),
      Encode(payloadBytes), payloadBytes)
  }

  /** The decoding from the path-length byte on. */
  function DecodeRest(header: byte, codes: Option<(nat, nat)>, rest: seq<byte>): Result<Packet, DecodeError> {
    if rest == [] then Err(MissingPathLength)
    else
      match DecodePathLenByte(rest[0])
      case Err(e) => Err(e)
      case Ok((pathLen, bytesPerHop)) =>
        var end := 1 + pathLen * bytesPerHop;
        if |rest| < end then Err(PathOutOfBounds)
        else Ok(PacketOf(header, codes, pathLen, bytesPerHop, rest[1..end], rest[end..]))
  }

  function DecodeBytes(raw: seq<byte>): Result<Packet, DecodeError> {
    if |raw| < 2 then Err(TooShort)
    else if Version(raw[0]) != 0 then Err(UnsupportedVersion)
    else if !HasTransportCodes(raw[0]) then DecodeRest(raw[0], None, raw[1..])
    else if |raw| < 5 then Err(MissingTransportCodes)
    else DecodeRest(raw[0], Some((U16(raw[1], raw[2]), U16(raw[3], raw[4]))), raw[5..])
  }

  function StripPrefix(s: string): string {
    if "0x" <= s then s[2..] else s
  }

  /** The text a payload is decoded from: trimmed, then without a lower-case 0x in front. */
  function Normalize(payloadHex: string): string {
    StripPrefix(Trim(payloadHex))
  }

  function DecodeText(payloadHex: string): Result<Packet, DecodeError> {
    var normalized := Normalize(payloadHex);
    if normalized == "" then Err(EmptyPayload)
    else
      match Hex.Decode(normalized)
      case None => Err(BadHex)
      case Some(raw) => DecodeBytes(raw)
  }

  method DecodePacket(payloadHex: string) returns (r: Result<Packet, DecodeError>)
    ensures r == DecodeText(payloadHex)
  {
    var normalized := Normalize(payloadHex);
    if normalized == "" {
      return Err(EmptyPayload);
    }
    match Hex.Decode(normalized)
    case None => return Err(BadHex);
    case Some(raw) => r := ReadPacket(raw);
  }

  /** The source's code: an offset moving over the bytes. */
  method ReadPacket(raw: seq<byte>) returns (r: Result<Packet, DecodeError>)
    ensures r == DecodeBytes(raw)
  {
    if |raw| < 2 {
      return Err(TooShort);
    }
    var offset := 0;
    var header := raw[offset];
    offset := offset + 1;
    if Version(header) != 0 {
      return Err(UnsupportedVersion);
    }
    var transportCodes := None;
    if HasTransportCodes(header) {
      if |raw| < offset + 4 {
        return Err(MissingTransportCodes);
      }
      transportCodes := Some((U16(raw[offset], raw[offset + 1]), U16(raw[offset + 2], raw[offset + 3])));
      offset := offset + 4;
    }
    r := ReadRest(header, transportCodes, raw, offset);
  }

  method ReadRest(header: byte, transportCodes: Option<(nat, nat)>, raw: seq<byte>, from: nat)
    returns (r: Result<Packet, DecodeError>)
    requires from <= |raw|
    ensures r == DecodeRest(header, transportCodes, raw[from..])
  {
    var offset := from;
    if |raw| <= offset {
      return Err(MissingPathLength);
    }
    var lengths := DecodePathLenByte(raw[offset]);
    if lengths.Err? {
      return Err(lengths.error);
    }
    var (pathLen, bytesPerHop) := lengths.value;
    offset := offset + 1;
    var pathByteLength := pathLen * bytesPerHop;
    if |raw| < offset + pathByteLength {
      return Err(PathOutOfBounds);
    }
    var pathBytes := raw[offset..offset + pathByteLength];
    assert pathBytes == raw[from..][1..1 + pathByteLength];
    offset := offset + pathByteLength;
    var payloadBytes := raw[offset..];
    assert payloadBytes == raw[from..][1 + pathByteLength..];
    var groupedPath := GroupPath(pathBytes, pathLen, bytesPerHop);
    r := Ok(Packet(
        header, Version(header), PayloadType(header), RouteType(header), transportCodes,
        pathLen, bytesPerHop, pathByteLength, groupedPath, Encode(pathBytes),
        Encode(payloadBytes), payloadBytes));
  }

  /** The hop loop. */
  method GroupPath(pathBytes: seq<byte>, pathLen: nat, bytesPerHop: nat) returns (hops: seq<string>)
    requires bytesPerHop > 0 && |pathBytes| == pathLen * bytesPerHop
    ensures hops == Hops(pathBytes, bytesPerHop)
  {
    hops := [];
    assert pathBytes[0..] == pathBytes;
    for i := 0 to pathLen
      invariant 0 <= i * bytesPerHop <= |pathBytes|
      invariant Grouped(hops, pathBytes, i * bytesPerHop, bytesPerHop)
    {
      NextHop(i, pathLen, bytesPerHop);
      var start := i * bytesPerHop;
      var end := start + bytesPerHop;
      GroupNext(hops, pathBytes, start, bytesPerHop);
      hops := hops + [Encode(pathBytes[start..end])];
    }
    assert pathBytes[|pathBytes|..] == [];
  }

  /** The bytes up to start are grouped. */
  ghost predicate Grouped(hops: seq<string>, bytes: seq<byte>, start: nat, k: nat)
    requires k > 0 && start <= |bytes|
  {
    hops + Hops(bytes[start..], k) == Hops(bytes, k)
  }

  lemma GroupNext(hops: seq<string>, bytes: seq<byte>, start: nat, k: nat)
    requires 0 < k && start + k <= |bytes| && Grouped(hops, bytes, start, k)
    ensures Grouped(hops + [Encode(bytes[start..start + k])], bytes, start + k, k)
  {
    assert bytes[start..][..k] == bytes[start..start + k] && bytes[start..][k..] == bytes[start + k..];
    var hop, rest := Encode(bytes[start..start + k]), Hops(bytes[start + k..], k);
    assert hops + ([hop] + rest) == (hops + [hop]) + rest;
  }

  lemma NextHop(i: nat, n: nat, k: nat)
    requires i < n
    ensures i * k + k == (i + 1) * k <= n * k
  {
  }

  // ----- The encoder, as the specification -----

  function TransportBytes(codes: Option<(nat, nat)>): seq<byte>
    requires codes.Some? ==> codes.value.0 < 0x10000 && codes.value.1 < 0x10000
  {
    match codes
    case None => []
    case Some((a, b)) => [a % 256, a / 256, b % 256, b / 256]
  }

  /** What the fields of a packet must have to do with each other. */
  predicate WellFormed(p: Packet) {
    && p.payloadVersion == 0 && p.payloadType < 16 && p.routeType < 4
    && p.header == PackHeader(p.payloadVersion, p.payloadType, p.routeType)
    && (p.transportCodes.Some? <==> p.routeType == 0 || p.routeType == 3)
    && (p.transportCodes.Some? ==> p.transportCodes.value.0 < 0x10000 && p.transportCodes.value.1 < 0x10000)
    && p.pathLen < 64 && 1 <= p.bytesPerHop <= 3 && p.pathByteLength == p.pathLen * p.bytesPerHop
    && Hex.Decode(p.pathHex).Some?
    && Encode(Hex.Decode(p.pathHex).value) == p.pathHex
    && |Hex.Decode(p.pathHex).value| == p.pathByteLength
    && Flatten(p.path) == p.pathHex && |p.path| == p.pathLen
    && (forall hop | hop in p.path :: |hop| == 2 * p.bytesPerHop)
    && p.payloadHex == Encode(p.payloadBytes)
  }

  function PackHeader(version: nat, payloadType: nat, routeType: nat): byte
    requires version == 0 && payloadType < 16 && routeType < 4
  {
    version * 64 + payloadType * 4 + routeType
  }

  lemma UnpackedHeader(header: byte)
    requires Version(header) == 0
    ensures PayloadType(header) < 16 && RouteType(header) < 4
    ensures PackHeader(0, PayloadType(header), RouteType(header)) == header
  {
    assert header / 4 < 16;
  }

  lemma PackedHeader(payloadType: nat, routeType: nat)
    requires payloadType < 16 && routeType < 4
    ensures var header := PackHeader(0, payloadType, routeType);
            Version(header) == 0 && PayloadType(header) == payloadType && RouteType(header) == routeType
  {
    var header := PackHeader(0, payloadType, routeType);
    assert header / 4 == payloadType;
  }

  function PathBytes(p: Packet): seq<byte>
    requires WellFormed(p)
  {
    Hex.Decode(p.pathHex).value
  }

  /** Hops of one size that make up a path can only be its groups. */
  lemma {:induction false} HopsUnique(path: seq<string>, bytes: seq<byte>, k: nat)
    requires k > 0 && Flatten(path) == Encode(bytes) && forall hop | hop in path :: |hop| == 2 * k
    ensures path == Hops(bytes, k)
  {
    if path != [] {
      assert path[0] in path;
      assert path[0] == Encode(bytes)[..2 * k];
      EncodeSplit(bytes, k);
      HopsUnique(path[1..], bytes[k..], k);
    }
  }

  lemma WellFormedIsPacketOf(p: Packet)
    requires WellFormed(p)
    ensures p == PacketOf(p.header, p.transportCodes, p.pathLen, p.bytesPerHop, PathBytes(p), p.payloadBytes)
  {
    PackedHeader(p.payloadType, p.routeType);
    HopsUnique(p.path, PathBytes(p), p.bytesPerHop);
  }

  /** The hops of a decoded packet are its path bytes in order, each of the announced size. */
  lemma HopsArePath(raw: seq<byte>)
    requires DecodeBytes(raw).Ok?
    ensures var p := DecodeBytes(raw).value;
            && Flatten(p.path) == p.pathHex && |p.path| == p.pathLen
            && forall hop | hop in p.path :: |hop| == 2 * p.bytesPerHop
  {
    EncodeDecode(raw);
  }

  function EncodeRest(p: Packet): seq<byte>
    requires WellFormed(p)
  {
    [EncodePathLenByte(p.pathLen, p.bytesPerHop)] + (PathBytes(p) + p.payloadBytes)
  }

  function EncodePacket(p: Packet): seq<byte>
    requires WellFormed(p)
  {
    [PackHeader(p.payloadVersion, p.payloadType, p.routeType)] + TransportBytes(p.transportCodes) + EncodeRest(p)
  }

  /** The offset of the path-length byte: route types 0 and 3 carry four bytes of transport codes. */
  function PathLenOffset(raw: seq<byte>): nat
    requires raw != []
  {
    if raw[0] % 4 == 0 || raw[0] % 4 == 3 then 5 else 1
  }

  /** The offset of the payload: the path has the announced number of hops of the announced size. */
  function PathEnd(raw: seq<byte>): nat
    requires raw != [] && |raw| > PathLenOffset(raw)
  {
    var value := raw[PathLenOffset(raw)];
    PathLenOffset(raw) + 1 + Times(value % 64, value / 64 + 1)
  }

  function Times(n: nat, k: nat): nat {
    n * k
  }

  /** Version 0, a valid hop size, and enough bytes. */
  predicate Accepted(raw: seq<byte>) {
    && raw != []
    && raw[0] / 64 == 0
    && |raw| > PathLenOffset(raw)
    && raw[PathLenOffset(raw)] / 64 != 3
    && |raw| >= PathEnd(raw)
  }

  lemma DecodesIffAccepted(raw: seq<byte>)
    ensures DecodeBytes(raw).Ok? <==> Accepted(raw)
  {
    if raw != [] && |raw| > PathLenOffset(raw) {
      assert raw[PathLenOffset(raw)..][0] == raw[PathLenOffset(raw)];
    }
  }

  /** The first thing that is wrong with bytes that do not decode. */
  function Wrong(raw: seq<byte>): DecodeError {
    if |raw| < 2 then TooShort
    else if raw[0] / 64 != 0 then UnsupportedVersion
    else if PathLenOffset(raw) == 5 && |raw| < 5 then MissingTransportCodes
    else if |raw| <= PathLenOffset(raw) then MissingPathLength
    else if raw[PathLenOffset(raw)] / 64 == 3 then BadHopSize
    else PathOutOfBounds
  }

  lemma RejectedFor(raw: seq<byte>)
    ensures !Accepted(raw) ==> DecodeBytes(raw) == Err(Wrong(raw))
  {
    DecodesIffAccepted(raw);
    if raw != [] && |raw| > PathLenOffset(raw) {
      assert raw[PathLenOffset(raw)..][0] == raw[PathLenOffset(raw)];
    }
  }

  /** Where each field of an accepted packet is in the bytes; both transport codes have their less
      significant byte first. */
  lemma DecodedFields(raw: seq<byte>)
    requires Accepted(raw)
    ensures DecodeBytes(raw).Ok?
    ensures var p, at, end := DecodeBytes(raw).value, PathLenOffset(raw), PathEnd(raw);
            && p.header == raw[0] && p.payloadVersion == 0
            && p.payloadType == raw[0] / 4 && p.routeType == raw[0] % 4
            && (at == 1 ==> p.transportCodes == None)
            && (at == 5 ==> p.transportCodes == Some((raw[1] as int + 256 * raw[2] as int,
                                                      raw[3] as int + 256 * raw[4] as int)))
            && p.pathLen == raw[at] % 64 && p.bytesPerHop == raw[at] / 64 + 1
            && p.pathByteLength == p.pathLen * p.bytesPerHop == end - at - 1
            && p.pathHex == Encode(raw[at + 1..end])
            && p.payloadBytes == raw[end..] && p.payloadHex == Encode(raw[end..])
  {
    UnpackedHeader(raw[0]);
    var codes := if PathLenOffset(raw) == 1 then None
    else Some((U16(raw[1], raw[2]), U16(raw[3], raw[4])));
    RestDecodes(raw, codes);
    assert DecodeBytes(raw) == DecodeRest(raw[0], codes, raw[PathLenOffset(raw)..]);
  }

  lemma RestDecodes(raw: seq<byte>, codes: Option<(nat, nat)>)
    requires Accepted(raw)
    ensures var at, end := PathLenOffset(raw), PathEnd(raw);
            && end == at + 1 + raw[at] % 64 * (raw[at] / 64 + 1)
            && DecodeRest(raw[0], codes, raw[at..])
               == Ok(PacketOf(raw[0], codes, raw[at] % 64, raw[at] / 64 + 1, raw[at + 1..end], raw[end..]))
  {
    var at, end := PathLenOffset(raw), PathEnd(raw);
    SliceOfRest(raw, at, end);
    assert raw[at..][0] == raw[at];
  }

  lemma SliceOfRest(raw: seq<byte>, at: nat, end: nat)
    requires at < end <= |raw|
    ensures raw[at..][1..end - at] == raw[at + 1..end] && raw[at..][end - at..] == raw[end..]
  {
  }

  lemma PacketOfIsWellFormed(header: byte, codes: Option<(nat, nat)>, n: nat, k: nat,
                             path: seq<byte>, payload: seq<byte>)
    requires Version(header) == 0 && (codes.Some? <==> HasTransportCodes(header))
    requires codes.Some? ==> codes.value.0 < 0x10000 && codes.value.1 < 0x10000
    requires n < 64 && 1 <= k <= 3 && |path| == n * k
    ensures var p := PacketOf(header, codes, n, k, path, payload);
            WellFormed(p) && EncodeRest(p) == [EncodePathLenByte(n, k)] + (path + payload)
  {
    DecodeEncode(path);
    HopsConcatenate(path, n, k);
    UnpackedHeader(header);
  }

  lemma RestRoundTrip(header: byte, codes: Option<(nat, nat)>, rest: seq<byte>)
    requires Version(header) == 0 && (codes.Some? <==> HasTransportCodes(header))
    requires codes.Some? ==> codes.value.0 < 0x10000 && codes.value.1 < 0x10000
    requires DecodeRest(header, codes, rest).Ok?
    ensures var p := DecodeRest(header, codes, rest).value;
            WellFormed(p) && p.header == header && p.transportCodes == codes && EncodeRest(p) == rest
  {
    var (n, k) := DecodePathLenByte(rest[0]).value;
    PathLenByteRoundTrip(rest[0], n, k);
    var size := n * k;
    PacketOfIsWellFormed(header, codes, n, k, rest[1..1 + size], rest[1 + size..]);
    CutRest(rest, size);
  }

  lemma CutRest(rest: seq<byte>, size: nat)
    requires 1 + size <= |rest|
    ensures [rest[0]] + (rest[1..1 + size] + rest[1 + size..]) == rest
  {
    assert rest[1..1 + size] + rest[1 + size..] == rest[1..];
  }

  lemma TransportRoundTrip(a: byte, b: byte, c: byte, d: byte)
    ensures TransportBytes(Some((U16(a, b), U16(c, d)))) == [a, b, c, d]
  {
  }

  lemma EncodeDecodeWithCodes(raw: seq<byte>)
    requires DecodeBytes(raw).Ok? && HasTransportCodes(raw[0])
    ensures WellFormed(DecodeBytes(raw).value)
    ensures EncodePacket(DecodeBytes(raw).value) == raw
  {
    TransportRoundTrip(raw[1], raw[2], raw[3], raw[4]);
    RestRoundTrip(raw[0], Some((U16(raw[1], raw[2]), U16(raw[3], raw[4]))), raw[5..]);
    UnpackedHeader(raw[0]);
    CutCodes(raw);
  }

  lemma CutCodes(raw: seq<byte>)
    requires |raw| >= 5
    ensures [raw[0]] + [raw[1], raw[2], raw[3], raw[4]] + raw[5..] == raw
  {
  }

  lemma CutHead(raw: seq<byte>)
    requires raw != []
    ensures [raw[0]] + [] + raw[1..] == raw
  {
  }

  lemma EncodeDecodeWithoutCodes(raw: seq<byte>)
    requires DecodeBytes(raw).Ok? && !HasTransportCodes(raw[0])
    ensures WellFormed(DecodeBytes(raw).value)
    ensures EncodePacket(DecodeBytes(raw).value) == raw
  {
    RestRoundTrip(raw[0], None, raw[1..]);
    UnpackedHeader(raw[0]);
    CutHead(raw);
  }

  /** Encoding a decoded packet gives back its bytes: the fields hold everything, once. */
  lemma EncodeDecode(raw: seq<byte>)
    requires DecodeBytes(raw).Ok?
    ensures WellFormed(DecodeBytes(raw).value)
    ensures EncodePacket(DecodeBytes(raw).value) == raw
  {
    if HasTransportCodes(raw[0]) {
      EncodeDecodeWithCodes(raw);
    } else {
      EncodeDecodeWithoutCodes(raw);
    }
  }

  lemma PathOfRest(first: byte, path: seq<byte>, payload: seq<byte>)
    ensures var rest := [first] + (path + payload);
            rest[0] == first && rest[1..1 + |path|] == path && rest[1 + |path|..] == payload
  {
  }

  lemma DecodeEncodeRest(p: Packet)
    requires WellFormed(p)
    ensures DecodeRest(p.header, p.transportCodes, EncodeRest(p)) == Ok(p)
  {
    WellFormedIsPacketOf(p);
    PathLenByteRoundTrip(EncodeRest(p)[0], p.pathLen, p.bytesPerHop);
    PathOfRest(EncodePathLenByte(p.pathLen, p.bytesPerHop), PathBytes(p), p.payloadBytes);
  }

  lemma EncodedWithCodes(header: byte, codes: (nat, nat), rest: seq<byte>)
    requires Version(header) == 0 && HasTransportCodes(header) && codes.0 < 0x10000 && codes.1 < 0x10000
    ensures DecodeBytes([header] + TransportBytes(Some(codes)) + rest) == DecodeRest(header, Some(codes), rest)
  {
    var raw := [header] + TransportBytes(Some(codes)) + rest;
    assert raw[5..] == rest;
  }

  lemma EncodedWithoutCodes(header: byte, rest: seq<byte>)
    requires Version(header) == 0 && !HasTransportCodes(header) && rest != []
    ensures DecodeBytes([header] + TransportBytes(None) + rest) == DecodeRest(header, None, rest)
  {
    var raw := [header] + TransportBytes(None) + rest;
    assert raw[1..] == rest;
  }

  /** Decoding an encoded packet gives back the packet. */
  lemma DecodeEncodePacket(p: Packet)
    requires WellFormed(p)
    ensures DecodeBytes(EncodePacket(p)) == Ok(p)
  {
    DecodeEncodeRest(p);
    PackedHeader(p.payloadType, p.routeType);
    match p.transportCodes
    case Some(codes) => EncodedWithCodes(p.header, codes, EncodeRest(p));
    case None => EncodedWithoutCodes(p.header, EncodeRest(p));
  }

  lemma DecodeTextOfHex(raw: seq<byte>)
    requires raw != []
    ensures DecodeText(Encode(raw)) == DecodeBytes(raw)
  {
    var s := Encode(raw);
    EncodedDigits(raw);
    forall c | c in s ensures !IsSpace(c) && c != 'x' {}
    assert s[0] in s && s[1] in s && s[|s| - 1] in s;
    TrimFixed(s);
    DecodeEncode(raw);
  }

  /** The same at the level of hex texts. */
  lemma DecodeEncodeText(p: Packet)
    requires WellFormed(p)
    ensures DecodeText(Encode(EncodePacket(p))) == Ok(p)
  {
    DecodeTextOfHex(EncodePacket(p));
    DecodeEncodePacket(p);
  }

  lemma DigitsDecode(body: string, raw: seq<byte>)
    requires |body| == 2 * |raw| && AllMean(body, raw)
    ensures Hex.Decode(body) == Some(raw)
    ensures forall c | c in body :: IsHexDigit(c) && !IsSpace(c) && c != 'x'
  {
    DecodesTo(body, raw);
    DecodedDigits(body);
  }

  lemma NormalizedText(lead: string, body: string, trail: string)
    requires (forall c | c in lead :: IsSpace(c)) && (forall c | c in trail :: IsSpace(c))
    requires |body| > 1 && forall c | c in body :: !IsSpace(c) && c != 'x'
    ensures Normalize(lead + body + trail) == body
  {
    assert body[0] in body && body[1] in body && body[|body| - 1] in body;
    TrimPadding(lead, body, trail);
  }

  lemma NormalizedPrefixedText(lead: string, body: string, trail: string)
    requires (forall c | c in lead :: IsSpace(c)) && (forall c | c in trail :: IsSpace(c))
    requires body != [] && !IsSpace(body[|body| - 1])
    ensures Normalize(lead + ("0x" + body) + trail) == body
  {
    var prefixed := "0x" + body;
    assert prefixed[2..] == body && prefixed[|prefixed| - 1] == body[|body| - 1];
    TrimPadding(lead, prefixed, trail);
  }

  /** Space around the text and a lower-case 0x in front do not count; the rest must be hex digits
      of either case, two a byte. */
  lemma TextDecodes(lead: string, body: string, trail: string, raw: seq<byte>)
    requires (forall c | c in lead :: IsSpace(c)) && (forall c | c in trail :: IsSpace(c))
    requires |body| == 2 * |raw| > 0 && AllMean(body, raw)
    ensures DecodeText(lead + body + trail) == DecodeBytes(raw)
    ensures DecodeText(lead + ("0x" + body) + trail) == DecodeBytes(raw)
  {
    DigitsDecode(body, raw);
    NormalizedText(lead, body, trail);
    assert body[|body| - 1] in body;
    NormalizedPrefixedText(lead, body, trail);
  }

  /** Nothing but space is an empty payload, with or without 0x. */
  lemma BlankFails(blank: string)
    requires forall c | c in blank :: IsSpace(c)
    ensures DecodeText(blank) == Err(EmptyPayload) && DecodeText("0x") == Err(EmptyPayload)
  {
    TrimBlank(blank);
    TrimFixed("0x");
    assert "0x"[2..] == "";
  }

  /** Any other text that is not hex, apart from a 0x in front, is rejected as such, ... */
  lemma OtherTextFails(body: string)
    requires body != [] && Trimmed(body) && Hex.Decode(body) == None
    ensures DecodeText("0x" + body) == Err(BadHex)
    ensures !("0x" <= body) ==> DecodeText(body) == Err(BadHex)
  {
    TrimFixed(body);
    PrefixGoes(body);
  }

  /** ... one beginning with 0X included. */
  lemma CapitalPrefixFails(body: string)
    requires Trimmed(body) && "0X" <= body
    ensures DecodeText(body) == Err(BadHex)
  {
    assert body[1] == 'X';
    OtherTextFails(body);
  }

  lemma PrefixGoes(body: string)
    requires body != [] && Trimmed(body)
    ensures Normalize("0x" + body) == body
  {
    TrimJoined("0x", body);
    StripsPrefix(body);
  }

  lemma StripsPrefix(body: string)
    ensures StripPrefix("0x" + body) == body
  {
  }

  // ----- Dedupe by hash -----

  ghost predicate Injective(sha: string -> string) {
    forall a, b :: sha(a) == sha(b) ==> a == b
  }

  /** The packet hash; `sha` stands for SHA-256 in hex. It folds case over the whole trimmed
      text, an 0X in front included, while decoding strips only a lower-case 0x. */
  function HashPacket(sha: string -> string, fold: CaseMap, payloadHex: string): string {
    sha(Lower(fold, Trim(payloadHex)))
  }

  lemma SameFoldSameDigits(fold: CaseMap, s: string, t: string)
    requires LowerMap(fold) && Lower(fold, s) == Lower(fold, t)
    requires forall c | c in s :: IsHexDigit(c)
    requires forall c | c in t :: IsHexDigit(c)
    ensures Hex.Decode(s) == Hex.Decode(t)
  {
    assert |Lower(fold, s)| == |s| && |Lower(fold, t)| == |t|;
    forall i | 0 <= i < |s| ensures IsHexDigit(s[i]) && IsHexDigit(t[i]) && DigitValue(s[i]) == DigitValue(t[i]) {
      assert s[i] in s && t[i] in t;
      assert Lower(fold, s)[i] == Lower(fold, t)[i];
      assert fold(s[i]) == AsciiLower(s[i]) && fold(t[i]) == AsciiLower(t[i]);
    }
    DecodeIgnoresCase(s, t);
  }

  /** A lower-case x and a hex digit do not fold together. */
  lemma FoldedPrefix(fold: CaseMap, s: string, t: string)
    requires LowerMap(fold) && Lower(fold, s) == Lower(fold, t) && "0x" <= s
    ensures |t| == |s| && !IsHexDigit(t[1])
  {
  }

  lemma SameFoldSameBytes(fold: CaseMap, s: string, t: string)
    requires LowerMap(fold) && Lower(fold, s) == Lower(fold, t)
    requires Hex.Decode(StripPrefix(s)).Some? && Hex.Decode(StripPrefix(t)).Some?
    ensures Hex.Decode(StripPrefix(s)) == Hex.Decode(StripPrefix(t))
  {
    DecodedDigits(StripPrefix(s));
    DecodedDigits(StripPrefix(t));
    if "0x" <= s {
      PrefixFolds(fold, s, t);
      assert Lower(fold, s)[2..] == Lower(fold, s[2..]);
      assert Lower(fold, t)[2..] == Lower(fold, t[2..]);
      SameFoldSameDigits(fold, s[2..], t[2..]);
    } else if "0x" <= t {
      PrefixFolds(fold, t, s);
    } else {
      SameFoldSameDigits(fold, s, t);
    }
  }

  lemma PrefixFolds(fold: CaseMap, s: string, t: string)
    requires LowerMap(fold) && Lower(fold, s) == Lower(fold, t) && "0x" <= s
    requires forall c | c in StripPrefix(t) :: IsHexDigit(c)
    ensures "0x" <= t
  {
    FoldedPrefix(fold, s, t);
    var c := t[1];
    assert c in t;
  }

  /** Two payloads that both decode and have the same hash decode to the same packet: dropping
      the later one as a duplicate loses nothing. */
  lemma SameHashSamePacket(sha: string -> string, fold: CaseMap, a: string, b: string)
    requires Injective(sha) && LowerMap(fold)
    requires DecodeText(a).Ok? && DecodeText(b).Ok?
    requires HashPacket(sha, fold, a) == HashPacket(sha, fold, b)
    ensures DecodeText(a) == DecodeText(b)
  {
    SameFoldSameBytes(fold, Trim(a), Trim(b));
  }

  /** Texts that differ in the case of ASCII letters only, or in the space around them, have the same
      hash: such copies of a packet are dropped. */
  lemma SameTextSameHash(sha: string -> string, fold: CaseMap, lead: string, a: string, trail: string, b: string)
    requires LowerMap(fold) && (forall c | c in lead :: IsSpace(c)) && (forall c | c in trail :: IsSpace(c))
    requires a != [] && Trimmed(a) && Trimmed(b) && |a| == |b|
    requires forall i | 0 <= i < |a| :: a[i] == b[i] || (a[i] < 128 as char && b[i] < 128 as char
                                                         && AsciiLower(a[i]) == AsciiLower(b[i]))
    ensures HashPacket(sha, fold, lead + a + trail) == HashPacket(sha, fold, b)
  {
    TrimPadding(lead, a, trail);
    TrimFixed(b);
    forall i | 0 <= i < |a| ensures Lower(fold, a)[i] == Lower(fold, b)[i] {
      assert a[i] < 128 as char ==> fold(a[i]) == AsciiLower(a[i]);
      assert b[i] < 128 as char ==> fold(b[i]) == AsciiLower(b[i]);
    }
    assert Lower(fold, a) == Lower(fold, b);
  }

  /** And with an injective digest, texts of different lower case have different ones. */
  lemma SameHashSameText(sha: string -> string, fold: CaseMap, a: string, b: string)
    requires Injective(sha)
    ensures HashPacket(sha, fold, a) == HashPacket(sha, fold, b) <==> Lower(fold, Trim(a)) == Lower(fold, Trim(b))
  {
  }
}
