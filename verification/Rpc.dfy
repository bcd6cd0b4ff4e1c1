/** ONC RPC call and reply headers (section 9 of RFC 5531). */
module Rpc {
  import opened Common
  import opened Xdr

  const AUTH_BODY_MAX: u32 := 400
  const CALL := 0
  const REPLY := 1
  const RPC_VERSION := 2

  /** xid, message type, RPC version, program, version, procedure, then credential and verifier. */
  const CALL_HEADER: seq<Kind> := [U32, U32, U32, U32, U32, U32, U32, Opaque(AUTH_BODY_MAX), U32, Opaque(AUTH_BODY_MAX)]

  /** xid, message type, reply status, verifier, accept status. */
  const ACCEPTED_HEADER: seq<Kind> := [U32, U32, U32, U32, Opaque(AUTH_BODY_MAX), U32]

  /** xid, message type, reply status, reject status. */
  const DENIED_HEADER: seq<Kind> := [U32, U32, U32, U32]

  datatype Header = Header(xid: u32, prog: u32, vers: u32, procedure: u32)

  datatype Decoded =
    | Call(header: Header, args: seq<byte>)
    | Garbled(error: XdrError)
    | NotACall(xid: u32)
    | RpcVersion(xid: u32, vers: u32)

  function Words(data: seq<byte>, n: nat, ks: seq<Kind>): (r: Got<seq<Value>>)
    requires n <= |ks|
    ensures r == GetAll(ks, data, 0, n)
    ensures r.Good? ==> |r.value| == n && (n > 0 ==> r.pos <= |data|) && forall i :: 0 <= i < n ==> InBounds(ks[i], r.value[i])
  {
    var r := GetAll(ks, data, 0, n);
    if r.Good? then
      GotInBounds(ks, data, 0, n);
      assert forall i :: 0 <= i < n ==> ks[..n][i] == ks[i];
      r
    else r
  }

  /** A record as a call. Type and version are looked at before the rest of the header has to parse. */
  function DecodeCall(record: seq<byte>): Decoded {
    match Words(record, 2, CALL_HEADER)
    case Bad(e) => Garbled(e)
    case Good(two, _) =>
      if two[1].n != CALL then NotACall(two[0].n) else
      match Words(record, 3, CALL_HEADER)
      case Bad(e) => Garbled(e)
      case Good(three, _) =>
        if three[2].n != RPC_VERSION then RpcVersion(three[0].n, three[2].n) else
        match Words(record, 10, CALL_HEADER)
        case Bad(e) => Garbled(e)
        case Good(all, pos) => Call(Header(all[0].n, all[3].n, all[4].n, all[5].n), record[pos..])
  }

  /** A credential or verifier: its flavour and its body. */
  datatype Auth = Auth(flavor: u32, body: seq<byte>)

  const AUTH_NONE := Auth(0, [])

  function CallFields(h: Header, kind: u32, version: u32, cred: Auth, verf: Auth): seq<Value> {
    [Num(h.xid), Num(kind), Num(version), Num(h.prog), Num(h.vers), Num(h.procedure),
     Num(cred.flavor), Octets(cred.body), Num(verf.flavor), Octets(verf.body)]
  }

  function EncodeCall(h: Header, args: seq<byte>): seq<byte> {
    PutAll(CALL_HEADER, CallFields(h, CALL, RPC_VERSION, AUTH_NONE, AUTH_NONE)) + args
  }

  lemma PrefixOfLayout(ks: seq<Kind>, vs: seq<Value>, data: seq<byte>, n: nat)
    requires n <= |ks| == |vs| && GetAll(ks, data, 0, |ks|).Good? && GetAll(ks, data, 0, |ks|).value == vs
    ensures GetAll(ks, data, 0, n).Good? && GetAll(ks, data, 0, n).value == vs[..n]
  {
    PrefixGood(Getter(ks, data), |ks|, n);
  }

  lemma {:induction false} PrefixGood(get: (nat, nat) -> Got<Value>, m: nat, n: nat)
    requires n <= m && Chain(get, 0, m).Good?
    ensures Chain(get, 0, n).Good? && Chain(get, 0, n).value == Chain(get, 0, m).value[..n]
  {
    if n < m {
      PrefixGood(get, m - 1, n);
    }
  }

  /**
   A call with a credential and verifier of any flavour and any body the limits admit decodes to its own header and
   arguments; one of another message type or RPC version is refused with its xid.
   */
  lemma CallRoundTrip(h: Header, kind: u32, version: u32, cred: Auth, verf: Auth, args: seq<byte>)
    requires |cred.body| <= AUTH_BODY_MAX && |verf.body| <= AUTH_BODY_MAX
    ensures var record := PutAll(CALL_HEADER, CallFields(h, kind, version, cred, verf)) + args;
            DecodeCall(record) == if kind != CALL then NotACall(h.xid)
                                  else if version != RPC_VERSION then RpcVersion(h.xid, version)
                                  else Call(h, args)
  {
    var vs := CallFields(h, kind, version, cred, verf);
    var record := PutAll(CALL_HEADER, vs) + args;
    assert HasAt(record, 0, PutAll(CALL_HEADER, vs));
    LayoutRoundTrip(CALL_HEADER, vs, record, 0);
    PrefixOfLayout(CALL_HEADER, vs, record, 2);
    PrefixOfLayout(CALL_HEADER, vs, record, 3);
    assert record[|PutAll(CALL_HEADER, vs)|..] == args;
  }

  /** In particular the client's own calls. */
  lemma EncodedCallDecodes(h: Header, args: seq<byte>)
    ensures DecodeCall(EncodeCall(h, args)) == Call(h, args)
  {
    CallRoundTrip(h, CALL, RPC_VERSION, AUTH_NONE, AUTH_NONE, args);
  }

  // ---- Replies ----

  datatype Reply = Success(results: seq<byte>) | Failed(stat: u32, extra: seq<byte>) | Denied(stat: u32, extra: seq<byte>)

  datatype ReplyBody = SuccessBody(results: seq<byte>) | AcceptedBody(stat: u32) | DeniedBody(stat: u32) | BadReply(error: XdrError) | WrongXid(got: u32) | NotAReply(kind: u32)

  function AcceptedFields(xid: u32, stat: u32): seq<Value> { [Num(xid), Num(REPLY), Num(0), Num(0), Octets([]), Num(stat)] }

  function Accepted(xid: u32, stat: u32): seq<byte> { PutAll(ACCEPTED_HEADER, AcceptedFields(xid, stat)) }

  /** Every reply the server writes: accepted ones carry an empty verifier, mismatches a version range. */
  function EncodeReply(xid: u32, r: Reply): seq<byte> {
    match r
    case Success(results) => Accepted(xid, 0) + results
    case Failed(stat, extra) => Accepted(xid, stat) + extra
    case Denied(stat, extra) => PutAll(DENIED_HEADER, [Num(xid), Num(REPLY), Num(1), Num(stat)]) + extra
  }

  function DecodeReply(record: seq<byte>, expected: u32): ReplyBody {
    match Words(record, 1, DENIED_HEADER)
    case Bad(e) => BadReply(e)
    case Good(one, _) =>
      if one[0].n != expected then WrongXid(one[0].n) else
      match Words(record, 2, DENIED_HEADER)
      case Bad(e) => BadReply(e)
      case Good(two, _) =>
        if two[1].n != REPLY then NotAReply(two[1].n) else
        match Words(record, 3, DENIED_HEADER)
        case Bad(e) => BadReply(e)
        case Good(three, _) =>
          if three[2].n == 0 then
            match Words(record, 6, ACCEPTED_HEADER)
            case Bad(e) => BadReply(e)
            case Good(all, pos) => if all[5].n == 0 then SuccessBody(record[pos..]) else AcceptedBody(all[5].n)
          else if three[2].n == 1 then
            match Words(record, 4, DENIED_HEADER)
            case Bad(e) => BadReply(e)
            case Good(all, _) => DeniedBody(all[3].n)
          else NotAReply(three[2].n)
  }

  function BodyOf(r: Reply): ReplyBody {
    match r
    case Success(results) => SuccessBody(results)
    case Failed(stat, _) => AcceptedBody(stat)
    case Denied(stat, _) => DeniedBody(stat)
  }

  /** The first words of a layout do not depend on what follows them in it. */
  lemma {:induction false} SameFirstWords(ks: seq<Kind>, js: seq<Kind>, data: seq<byte>, n: nat)
    requires n <= |ks| && n <= |js| && ks[..n] == js[..n]
    ensures GetAll(ks, data, 0, n) == GetAll(js, data, 0, n)
  {
    if n > 0 {
      assert ks[..n - 1] == ks[..n][..n - 1] && js[..n - 1] == js[..n][..n - 1];
      assert ks[n - 1] == ks[..n][n - 1] && js[n - 1] == js[..n][n - 1];
      SameFirstWords(ks, js, data, n - 1);
    }
  }

  lemma DeniedRoundTrip(xid: u32, stat: u32, extra: seq<byte>)
    ensures DecodeReply(EncodeReply(xid, Denied(stat, extra)), xid) == DeniedBody(stat)
    ensures Words(EncodeReply(xid, Denied(stat, extra)), 1, DENIED_HEADER).Good?
    ensures Words(EncodeReply(xid, Denied(stat, extra)), 1, DENIED_HEADER).value == [Num(xid)]
  {
    var record, vs := EncodeReply(xid, Denied(stat, extra)), [Num(xid), Num(REPLY), Num(1), Num(stat)];
    assert HasAt(record, 0, PutAll(DENIED_HEADER, vs));
    LayoutRoundTrip(DENIED_HEADER, vs, record, 0);
    FirstWords(DENIED_HEADER, vs, record);
  }

  lemma AcceptedRoundTrip(xid: u32, stat: u32, rest: seq<byte>)
    ensures DecodeReply(Accepted(xid, stat) + rest, xid) == if stat == 0 then SuccessBody(rest) else AcceptedBody(stat)
    ensures Words(Accepted(xid, stat) + rest, 1, DENIED_HEADER).Good?
    ensures Words(Accepted(xid, stat) + rest, 1, DENIED_HEADER).value == [Num(xid)]
  {
    var record := Accepted(xid, stat) + rest;
    AcceptedHeader(xid, stat, rest);
    assert record[|Accepted(xid, stat)|..] == rest;
  }

  lemma AcceptedHeader(xid: u32, stat: u32, rest: seq<byte>)
    ensures var record, vs := Accepted(xid, stat) + rest, AcceptedFields(xid, stat);
            && GetAll(ACCEPTED_HEADER, record, 0, 6) == Good(vs, |Accepted(xid, stat)|)
            && forall n :: 1 <= n <= 3 ==> GetAll(DENIED_HEADER, record, 0, n).Good? && GetAll(DENIED_HEADER, record, 0, n).value == vs[..n]
  {
    var record, vs := Accepted(xid, stat) + rest, AcceptedFields(xid, stat);
    assert HasAt(record, 0, PutAll(ACCEPTED_HEADER, vs));
    LayoutRoundTrip(ACCEPTED_HEADER, vs, record, 0);
    FirstWords(ACCEPTED_HEADER, vs, record);
  }

  /** Whatever the server answers, the client it answers reads it back, and a client waiting for another xid refuses it. */
  lemma ReplyRoundTrip(xid: u32, r: Reply, expected: u32)
    requires r.Failed? ==> r.stat != 0
    ensures DecodeReply(EncodeReply(xid, r), expected) == if expected == xid then BodyOf(r) else WrongXid(xid)
  {
    if r.Denied? {
      DeniedRoundTrip(xid, r.stat, r.extra);
    } else {
      AcceptedRoundTrip(xid, if r.Success? then 0 else r.stat, if r.Success? then r.results else r.extra);
    }
  }

  lemma FirstWords(ks: seq<Kind>, vs: seq<Value>, record: seq<byte>)
    requires |ks| == |vs| >= 3 && ks[..3] == [U32, U32, U32]
    requires GetAll(ks, record, 0, |ks|).Good? && GetAll(ks, record, 0, |ks|).value == vs
    ensures forall n :: 1 <= n <= 3 ==> GetAll(DENIED_HEADER, record, 0, n).Good? && GetAll(DENIED_HEADER, record, 0, n).value == vs[..n]
  {
    forall n | 1 <= n <= 3 ensures GetAll(DENIED_HEADER, record, 0, n).Good? && GetAll(DENIED_HEADER, record, 0, n).value == vs[..n] {
      assert ks[..n] == ks[..3][..n] && DENIED_HEADER[..n] == DENIED_HEADER[..3][..n];
      PrefixOfLayout(ks, vs, record, n);
      SameFirstWords(ks, DENIED_HEADER, record, n);
    }
  }
}
