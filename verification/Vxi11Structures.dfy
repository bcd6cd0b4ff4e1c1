/** The VXI-11 argument and result structures as XDR layouts. */
module Vxi11Structures {
  import opened Common
  import opened Xdr

  const DEVICE_NAME_MAX: u32 := 1024
  const SRQ_HANDLE_MAX: u32 := 40
  const DOCMD_MAX: u32 := 4096

  datatype Struct =
    | CreateLinkParms(clientId: i32, lockDevice: bool, lockTimeoutMs: u32, device: seq<byte>)
    | CreateLinkResp(error: u32, lid: i32, abortPort: u16, maxRecvSize: u32)
    | DeviceWriteParms(lid: i32, ioTimeoutMs: u32, lockTimeoutMs: u32, flags: u32, data: seq<byte>)
    | DeviceWriteResp(error: u32, size: u32)
    | DeviceReadParms(lid: i32, requestSize: u32, ioTimeoutMs: u32, lockTimeoutMs: u32, flags: u32, termChar: i32)
    | DeviceReadResp(error: u32, reason: u32, data: seq<byte>)
    | DeviceGenericParms(lid: i32, flags: u32, lockTimeoutMs: u32, ioTimeoutMs: u32)
    | DeviceReadStbResp(error: u32, stb: byte)
    | DeviceLockParms(lid: i32, flags: u32, lockTimeoutMs: u32)
    | DeviceEnableSrqParms(lid: i32, enable: bool, handle: seq<byte>)
    | DeviceRemoteFunc(hostAddr: u32, hostPort: u16, progNum: u32, progVers: u32, progFamily: u32)
    | DeviceSrqParms(handle: seq<byte>)
    | DeviceDocmdParms(lid: i32, flags: u32, ioTimeoutMs: u32, lockTimeoutMs: u32, cmd: i32, networkOrder: bool, datasize: i32, data: seq<byte>)
    | DeviceDocmdResp(error: u32, data: seq<byte>)
    | DeviceError(error: u32)

  datatype Name =
    | CreateLinkParmsName | CreateLinkRespName | DeviceWriteParmsName | DeviceWriteRespName | DeviceReadParmsName
    | DeviceReadRespName | DeviceGenericParmsName | DeviceReadStbRespName | DeviceLockParmsName | DeviceEnableSrqParmsName
    | DeviceRemoteFuncName | DeviceSrqParmsName | DeviceDocmdParmsName | DeviceDocmdRespName | DeviceErrorName

  /** The items of each structure; `maxData` is the limit a link negotiated for written or read data. */
  function Layout(name: Name, maxData: u32): seq<Kind> {
    match name
    case CreateLinkParmsName => [I32, Bool, U32, Opaque(DEVICE_NAME_MAX)]
    case CreateLinkRespName => [U32, I32, U16, U32]
    case DeviceWriteParmsName => [I32, U32, U32, U32, Opaque(maxData)]
    case DeviceWriteRespName => [U32, U32]
    case DeviceReadParmsName => [I32, U32, U32, U32, U32, I32]
    case DeviceReadRespName => [U32, U32, Opaque(maxData)]
    case DeviceGenericParmsName => [I32, U32, U32, U32]
    case DeviceReadStbRespName => [U32, U8]
    case DeviceLockParmsName => [I32, U32, U32]
    case DeviceEnableSrqParmsName => [I32, Bool, Opaque(SRQ_HANDLE_MAX)]
    case DeviceRemoteFuncName => [U32, U16, U32, U32, U32]
    case DeviceSrqParmsName => [Opaque(SRQ_HANDLE_MAX)]
    case DeviceDocmdParmsName => [I32, U32, U32, U32, I32, Bool, I32, Opaque(DOCMD_MAX)]
    case DeviceDocmdRespName => [U32, Opaque(DOCMD_MAX)]
    case DeviceErrorName => [U32]
  }

  function NameOf(s: Struct): Name {
    match s
    case CreateLinkParms(_, _, _, _) => CreateLinkParmsName
    case CreateLinkResp(_, _, _, _) => CreateLinkRespName
    case DeviceWriteParms(_, _, _, _, _) => DeviceWriteParmsName
    case DeviceWriteResp(_, _) => DeviceWriteRespName
    case DeviceReadParms(_, _, _, _, _, _) => DeviceReadParmsName
    case DeviceReadResp(_, _, _) => DeviceReadRespName
    case DeviceGenericParms(_, _, _, _) => DeviceGenericParmsName
    case DeviceReadStbResp(_, _) => DeviceReadStbRespName
    case DeviceLockParms(_, _, _) => DeviceLockParmsName
    case DeviceEnableSrqParms(_, _, _) => DeviceEnableSrqParmsName
    case DeviceRemoteFunc(_, _, _, _, _) => DeviceRemoteFuncName
    case DeviceSrqParms(_) => DeviceSrqParmsName
    case DeviceDocmdParms(_, _, _, _, _, _, _, _) => DeviceDocmdParmsName
    case DeviceDocmdResp(_, _) => DeviceDocmdRespName
    case DeviceError(_) => DeviceErrorName
  }

  function Fields(s: Struct): seq<Value> {
    match s
    case CreateLinkParms(a, b, c, d) => [Num(a), Flag(b), Num(c), Octets(d)]
    case CreateLinkResp(a, b, c, d) => [Num(a), Num(b), Num(c), Num(d)]
    case DeviceWriteParms(a, b, c, d, e) => [Num(a), Num(b), Num(c), Num(d), Octets(e)]
    case DeviceWriteResp(a, b) => [Num(a), Num(b)]
    case DeviceReadParms(a, b, c, d, e, f) => [Num(a), Num(b), Num(c), Num(d), Num(e), Num(f)]
    case DeviceReadResp(a, b, c) => [Num(a), Num(b), Octets(c)]
    case DeviceGenericParms(a, b, c, d) => [Num(a), Num(b), Num(c), Num(d)]
    case DeviceReadStbResp(a, b) => [Num(a), Num(b)]
    case DeviceLockParms(a, b, c) => [Num(a), Num(b), Num(c)]
    case DeviceEnableSrqParms(a, b, c) => [Num(a), Flag(b), Octets(c)]
    case DeviceRemoteFunc(a, b, c, d, e) => [Num(a), Num(b), Num(c), Num(d), Num(e)]
    case DeviceSrqParms(a) => [Octets(a)]
    case DeviceDocmdParms(a, b, c, d, e, f, g, h) => [Num(a), Num(b), Num(c), Num(d), Num(e), Flag(f), Num(g), Octets(h)]
    case DeviceDocmdResp(a, b) => [Num(a), Octets(b)]
    case DeviceError(a) => [Num(a)]
  }

  function Build(name: Name, vs: seq<Value>, maxData: u32): Struct
    requires AllInBounds(Layout(name, maxData), vs)
  {
    assert forall i :: 0 <= i < |vs| ==> InBounds(Layout(name, maxData)[i], vs[i]);
    match name
    case CreateLinkParmsName => CreateLinkParms(vs[0].n, vs[1].on, vs[2].n, vs[3].bytes)
    case CreateLinkRespName => CreateLinkResp(vs[0].n, vs[1].n, vs[2].n, vs[3].n)
    case DeviceWriteParmsName => DeviceWriteParms(vs[0].n, vs[1].n, vs[2].n, vs[3].n, vs[4].bytes)
    case DeviceWriteRespName => DeviceWriteResp(vs[0].n, vs[1].n)
    case DeviceReadParmsName => DeviceReadParms(vs[0].n, vs[1].n, vs[2].n, vs[3].n, vs[4].n, vs[5].n)
    case DeviceReadRespName => DeviceReadResp(vs[0].n, vs[1].n, vs[2].bytes)
    case DeviceGenericParmsName => DeviceGenericParms(vs[0].n, vs[1].n, vs[2].n, vs[3].n)
    case DeviceReadStbRespName => DeviceReadStbResp(vs[0].n, vs[1].n)
    case DeviceLockParmsName => DeviceLockParms(vs[0].n, vs[1].n, vs[2].n)
    case DeviceEnableSrqParmsName => DeviceEnableSrqParms(vs[0].n, vs[1].on, vs[2].bytes)
    case DeviceRemoteFuncName => DeviceRemoteFunc(vs[0].n, vs[1].n, vs[2].n, vs[3].n, vs[4].n)
    case DeviceSrqParmsName => DeviceSrqParms(vs[0].bytes)
    case DeviceDocmdParmsName => DeviceDocmdParms(vs[0].n, vs[1].n, vs[2].n, vs[3].n, vs[4].n, vs[5].on, vs[6].n, vs[7].bytes)
    case DeviceDocmdRespName => DeviceDocmdResp(vs[0].n, vs[1].bytes)
    case DeviceErrorName => DeviceError(vs[0].n)
  }

  /** The opaque a structure carries, and the limit its decoder sets. */
  predicate WithinLimit(s: Struct, maxData: u32) {
    match s
    case CreateLinkParms(_, _, _, device) => |device| <= DEVICE_NAME_MAX
    case DeviceWriteParms(_, _, _, _, data) => |data| <= maxData
    case DeviceReadResp(_, _, data) => |data| <= maxData
    case DeviceEnableSrqParms(_, _, handle) => |handle| <= SRQ_HANDLE_MAX
    case DeviceSrqParms(handle) => |handle| <= SRQ_HANDLE_MAX
    case DeviceDocmdParms(_, _, _, _, _, _, _, data) => |data| <= DOCMD_MAX
    case DeviceDocmdResp(_, data) => |data| <= DOCMD_MAX
    case _ => true
  }

  predicate Encodable(s: Struct) { AllFit(Layout(NameOf(s), 0), Fields(s)) }

  function Encode(s: Struct): seq<byte>
    requires Encodable(s)
  {
    PutAll(Layout(NameOf(s), 0), Fields(s))
  }

  function Decode(name: Name, data: seq<byte>, maxData: u32): Got<Struct> {
    var ks := Layout(name, maxData);
    match GetAll(ks, data, 0, |ks|)
    case Bad(e) => Bad(e)
    case Good(vs, pos) =>
      GotInBounds(ks, data, 0, |ks|);
      assert ks[..|ks|] == ks;
      Good(Build(name, vs, maxData), pos)
  }

  lemma FitsAnyLimit(s: Struct, maxData: u32)
    requires Encodable(s)
    ensures AllFit(Layout(NameOf(s), maxData), Fields(s))
  {
    var any, vs := Layout(NameOf(s), 0), Fields(s);
    assert forall i :: 0 <= i < |vs| ==> Fits(any[i], vs[i]);
  }

  lemma LimitIsInBounds(s: Struct, maxData: u32)
    requires AllFit(Layout(NameOf(s), maxData), Fields(s))
    ensures WithinLimit(s, maxData) <==> AllInBounds(Layout(NameOf(s), maxData), Fields(s))
  {
    var ks, vs := Layout(NameOf(s), maxData), Fields(s);
    assert forall i :: 0 <= i < |vs| ==> Fits(ks[i], vs[i]);
    assert !WithinLimit(s, maxData) ==> !InBounds(ks[|vs| - 1], vs[|vs| - 1]);
  }

  lemma BuildsFields(s: Struct, maxData: u32)
    requires AllInBounds(Layout(NameOf(s), maxData), Fields(s))
    ensures Build(NameOf(s), Fields(s), maxData) == s
  {
  }

  lemma EncodingIgnoresLimit(s: Struct, maxData: u32)
    requires Encodable(s) && AllFit(Layout(NameOf(s), maxData), Fields(s))
    ensures Encode(s) == PutAll(Layout(NameOf(s), maxData), Fields(s))
  {
    var ks, any, vs := Layout(NameOf(s), maxData), Layout(NameOf(s), 0), Fields(s);
    forall i | 0 <= i < |vs| ensures Put(ks[i], vs[i]) == Put(any[i], vs[i]) {
    }
    assert Items(ks, vs) == Items(any, vs);
  }

  /** Every structure decodes to what was encoded, whatever follows it, exactly when its opaque is within the decoder's limit. */
  lemma StructureRoundTrip(s: Struct, tail: seq<byte>, maxData: u32)
    requires Encodable(s)
    ensures WithinLimit(s, maxData) ==> Decode(NameOf(s), Encode(s) + tail, maxData) == Good(s, |Encode(s)|)
    ensures !WithinLimit(s, maxData) ==> Decode(NameOf(s), Encode(s) + tail, maxData) == Bad(TooLong)
  {
    var ks, vs, data := Layout(NameOf(s), maxData), Fields(s), Encode(s) + tail;
    FitsAnyLimit(s, maxData);
    LimitIsInBounds(s, maxData);
    EncodingIgnoresLimit(s, maxData);
    assert HasAt(data, 0, PutAll(ks, vs));
    if WithinLimit(s, maxData) {
      LayoutRoundTrip(ks, vs, data, 0);
      BuildsFields(s, maxData);
    } else {
      LayoutRefused(ks, vs, data, 0);
    }
  }
}
