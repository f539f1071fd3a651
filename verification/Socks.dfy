// The SOCKS5 client handshake of packages/desktop/main/socksAgent.js.
//
// `Judge` reads a whole proxy stream at once. `Handshake` is the incremental
// parser over whatever chunks TCP delivers; its invariant ties every field to
// `Judge` of the bytes heard so far. The grammar of RFC 1928 sections 3, 4 and
// 6 is given independently, as encoders, and `Judge` is proved against it.
module Socks {
  import opened Wrappers

  type Byte = x: int | 0 <= x < 256
  type Bytes = seq<Byte>

  const SOCKS5: Byte := 5
  const NO_AUTH: Byte := 0
  const CMD_CONNECT: Byte := 1
  const ATYP_IPV4: Byte := 1
  const ATYP_DOMAIN: Byte := 3
  const ATYP_IPV6: Byte := 4

  datatype Failure =
    | NotSocks5
    | AuthRequired
    | HostTooLong
    | MalformedReply
    | Refused(code: Byte)
    | TimedOut
    | SocketError
    | ClosedDuringHandshake
  {
    // Failures that come from the socket rather than from a byte the proxy sent.
    predicate FromTransport() {
      TimedOut? || SocketError? || ClosedDuringHandshake?
    }
  }

  datatype Outcome = Waiting | Failed(reason: Failure) | Connected

  // ---------------------------------------------------------------- grammar

  // BND.ADDR, RFC 1928 section 6.
  datatype Address = IPv4(octets: Bytes) | Domain(name: Bytes) | IPv6(octets: Bytes) {
    predicate WellFormed() {
      match this
      case IPv4(o) => |o| == 4
      case Domain(n) => |n| < 256
      case IPv6(o) => |o| == 16
    }

    function Encode(): Bytes
      requires WellFormed()
    {
      match this
      case IPv4(o) => [ATYP_IPV4] + o
      case Domain(n) => [ATYP_DOMAIN, |n|] + n
      case IPv6(o) => [ATYP_IPV6] + o
    }
  }

  // The accepting method selection of section 3 followed by the succeeded
  // reply of section 6.
  function EncodeAccept(rsv: Byte, a: Address, hi: Byte, lo: Byte): Bytes
    requires a.WellFormed()
  {
    [SOCKS5, NO_AUTH] + [SOCKS5, 0, rsv] + a.Encode() + [hi, lo]
  }

  // The CONNECT request of section 4, always with a domain name so that the
  // proxy resolves it.
  function Request(host: Bytes, port: int): Bytes
    requires |host| < 256
  {
    [SOCKS5, CMD_CONNECT, 0, ATYP_DOMAIN, |host|] + host + [(port / 256) % 256, port % 256]
  }

  // A server's reading of a section 4 request that names a domain; RSV is X'00'.
  function DecodeRequest(b: Bytes): Option<(Bytes, int)> {
    if |b| < 5 || b[0] != SOCKS5 || b[1] != CMD_CONNECT || b[2] != 0 || b[3] != ATYP_DOMAIN then None
    else if |b| != 7 + (b[4] as int) then None
    else Some((b[5..|b| - 2], 256 * (b[|b| - 2] as int) + b[|b| - 1]))
  }

  lemma PortBytes(port: int)
    ensures 256 * ((port / 256) % 256) + port % 256 == port % 65536
  {
  }

  lemma RequestParts(host: Bytes, port: int)
    requires |host| < 256
    ensures var b := Request(host, port);
            && |b| == |host| + 7 && b[0] == SOCKS5 && b[1] == CMD_CONNECT && b[2] == 0 && b[3] == ATYP_DOMAIN
            && b[4] == |host| && b[5..|b| - 2] == host && b[|b| - 2] == (port / 256) % 256 && b[|b| - 1] == port % 256
  {
  }

  // Every byte of the request: the five fixed ones, the name, the port with its
  // high byte first.
  lemma RequestBytes(host: Bytes, port: int)
    requires |host| < 256
    ensures var b := Request(host, port);
            && |b| == 7 + |host|
            && b[..5] == [5, 1, 0, 3, |host|]
            && b[5..5 + |host|] == host
            && b[5 + |host|..] == [(port / 256) % 256, port % 256]
  {
    var b := Request(host, port);
    assert b[0] == 5 && b[1] == 1 && b[2] == 0 && b[3] == 3 && b[4] == |host|;
  }

  // The request names exactly the host asked for, and the port exactly when it
  // is a port; any other integer is sent modulo 65536.
  lemma RequestDecodes(host: Bytes, port: int)
    requires |host| < 256
    ensures DecodeRequest(Request(host, port)) == Some((host, port % 65536))
    ensures DecodeRequest(Request(host, port)) == Some((host, port)) <==> 0 <= port < 65536
  {
    RequestParts(host, port);
    PortBytes(port);
    hide Request;
  }

  // --------------------------------------------------------- one-shot reading

  datatype Verdict = NeedMore | Reject(reason: Failure) | Accept(consumed: nat)

  predicate GreetingAccepted(host: Bytes, s: Bytes) {
    |s| >= 2 && s[0] == SOCKS5 && s[1] == NO_AUTH && |host| < 256
  }

  datatype Length = Unknown | Undefined | Known(bytes: nat)

  // The length of the reply that starts `r`, once enough of it is there to
  // tell; RFC 1928 defines three address types.
  function ReplyLength(r: Bytes): Length {
    if |r| < 4 then Unknown
    else if r[3] == ATYP_IPV4 then Known(10)
    else if r[3] == ATYP_IPV6 then Known(22)
    else if r[3] == ATYP_DOMAIN then (if |r| < 5 then Unknown else Known(7 + (r[4] as int)))
    else Undefined
  }

  function JudgeReply(r: Bytes): Verdict {
    if |r| == 0 then NeedMore
    else if r[0] != SOCKS5 then Reject(MalformedReply)
    else if |r| < 2 then NeedMore
    else if r[1] != 0 then Reject(Refused(r[1]))
    else
      match ReplyLength(r)
      case Unknown => NeedMore
      case Undefined => Reject(MalformedReply)
      case Known(n) => if |r| < n then NeedMore else Accept(n)
  }

  // What a proxy stream means, read in one go.
  function Judge(host: Bytes, s: Bytes): Verdict {
    if |s| == 0 then NeedMore
    else if s[0] != SOCKS5 then Reject(NotSocks5)
    else if |s| < 2 then NeedMore
    else if s[1] != NO_AUTH then Reject(AuthRequired)
    else if |host| > 255 then Reject(HostTooLong)
    else
      match JudgeReply(s[2..])
      case NeedMore => NeedMore
      case Reject(why) => Reject(why)
      case Accept(n) => Accept(2 + n)
  }

  // Which byte of the stream each refusal is about, and no refusal but these.
  lemma RejectsFor(host: Bytes, s: Bytes)
    ensures Judge(host, s) == Reject(NotSocks5) <==> |s| >= 1 && s[0] != 5
    ensures Judge(host, s) == Reject(AuthRequired) <==> |s| >= 2 && s[0] == 5 && s[1] != 0
    ensures Judge(host, s) == Reject(HostTooLong) <==> |s| >= 2 && s[0] == 5 && s[1] == 0 && |host| >= 256
    ensures forall code: Byte ::
              Judge(host, s) == Reject(Refused(code))
              <==> |host| < 256 && |s| >= 4 && s[..4] == [5, 0, 5, code] && code != 0
    ensures Judge(host, s) == Reject(MalformedReply)
            <==> && |host| < 256 && |s| >= 3 && s[..2] == [5, 0]
                 && (s[2] != 5 || (|s| >= 6 && s[3] == 0 && s[5] != 1 && s[5] != 3 && s[5] != 4))
    ensures Judge(host, s).Reject? ==> !Judge(host, s).reason.FromTransport()
    ensures TimedOut.FromTransport() && SocketError.FromTransport() && ClosedDuringHandshake.FromTransport()
  {
    if |s| >= 2 {
      var r := s[2..];
      assert |r| > 0 ==> r[0] == s[2];
      assert |r| > 1 ==> r[1] == s[3];
      assert |r| > 3 ==> r[3] == s[5];
      assert s[..2] == [s[0], s[1]];
      assert |r| > 1 ==> s[..4] == [s[0], s[1], s[2], s[3]];
    }
  }

  // How the handshake's promise stands once `v` is the reading so far.
  function OutcomeOf(v: Verdict): Outcome {
    match v
    case NeedMore => Waiting
    case Reject(why) => Failed(why)
    case Accept(_) => Connected
  }

  // A verdict, once reached, is not moved by anything sent after it.
  lemma JudgeStable(host: Bytes, s: Bytes, t: Bytes)
    requires Judge(host, s) != NeedMore || t == []
    ensures Judge(host, s + t) == Judge(host, s)
    ensures GreetingAccepted(host, s + t) == GreetingAccepted(host, s)
  {
    if t == [] {
      assert s + t == s;
    }
    if |s| >= 2 {
      var r := s[2..];
      assert (s + t)[2..] == r + t;
      assert forall k | 0 <= k < |r| :: (r + t)[k] == r[k];
    }
  }

  // Accepted streams are exactly the ones RFC 1928 writes down, and the bytes
  // not consumed are exactly the ones that follow the reply.
  lemma AcceptIsGrammar(host: Bytes, s: Bytes)
    requires |host| < 256
    ensures Judge(host, s).Accept? <==>
            exists rsv: Byte, a: Address, hi: Byte, lo: Byte ::
              a.WellFormed() && EncodeAccept(rsv, a, hi, lo) <= s
    ensures forall rsv: Byte, a: Address, hi: Byte, lo: Byte ::
              a.WellFormed() && EncodeAccept(rsv, a, hi, lo) <= s ==>
                Judge(host, s) == Accept(|EncodeAccept(rsv, a, hi, lo)|)
  {
    forall rsv: Byte, a: Address, hi: Byte, lo: Byte | a.WellFormed() && EncodeAccept(rsv, a, hi, lo) <= s
      ensures Judge(host, s) == Accept(|EncodeAccept(rsv, a, hi, lo)|)
    {
      GrammarIsAccepted(host, s, rsv, a, hi, lo);
    }
    if Judge(host, s).Accept? {
      var rsv, a, hi, lo := AcceptedParts(host, s);
      assert a.WellFormed() && EncodeAccept(rsv, a, hi, lo) <= s;
    }
  }

  lemma GrammarIsAccepted(host: Bytes, s: Bytes, rsv: Byte, a: Address, hi: Byte, lo: Byte)
    requires |host| < 256 && a.WellFormed()
    requires EncodeAccept(rsv, a, hi, lo) <= s
    ensures Judge(host, s) == Accept(|EncodeAccept(rsv, a, hi, lo)|)
  {
    var e := EncodeAccept(rsv, a, hi, lo);
    assert forall k | 0 <= k < |e| :: s[k] == e[k];
    assert e[0] == SOCKS5 && e[1] == NO_AUTH && e[2] == SOCKS5 && e[3] == 0;
    assert e[5] == a.Encode()[0];
    var r := s[2..];
    assert r[0] == SOCKS5 && r[1] == 0 && r[3] == a.Encode()[0];
    if a.Domain? {
      assert e[6] == a.Encode()[1] == |a.name|;
      assert r[4] == |a.name|;
    }
    assert |e| == 2 + ReplyLength(r).bytes;
  }

  lemma AcceptedParts(host: Bytes, s: Bytes) returns (rsv: Byte, a: Address, hi: Byte, lo: Byte)
    requires Judge(host, s).Accept?
    ensures a.WellFormed() && EncodeAccept(rsv, a, hi, lo) == s[..Judge(host, s).consumed]
  {
    var n := Judge(host, s).consumed;
    rsv := s[4];
    var first := if s[5] == ATYP_DOMAIN then 7 else 6;
    var body := s[first..n - 2];
    a := if s[5] == ATYP_IPV4 then IPv4(body)
         else if s[5] == ATYP_DOMAIN then Domain(body)
         else IPv6(body);
    assert s[2..][3] == s[5] && (s[5] == ATYP_DOMAIN ==> s[2..][4] == s[6]);
    hi, lo := s[n - 2], s[n - 1];
    assert s[0] == SOCKS5 && s[1] == NO_AUTH && s[2] == SOCKS5 && s[3] == 0;
    assert a.WellFormed() && n <= |s|;
    hide Judge, ReplyLength, JudgeReply;
    Pieces(s, n, first);
    assert a.Encode() == s[5..first] + body;
  }

  lemma Pieces(s: Bytes, n: nat, first: nat)
    requires 6 <= first <= 7 && first + 2 <= n <= |s|
    ensures s[..n] == [s[0], s[1]] + [s[2], s[3], s[4]] + (s[5..first] + s[first..n - 2]) + [s[n - 2], s[n - 1]]
    ensures s[5..first] == if first == 7 then [s[5], s[6]] else [s[5]]
  {
  }

  // The accepted streams byte by byte, for each address type of section 6.
  lemma AcceptBytes(rsv: Byte, a: Address, hi: Byte, lo: Byte)
    requires a.WellFormed()
    ensures EncodeAccept(rsv, a, hi, lo) == [5, 0, 5, 0, rsv] + AddressBytes(a) + [hi, lo]
  {
    assert [SOCKS5, NO_AUTH] + [SOCKS5, 0, rsv] == [5, 0, 5, 0, rsv];
  }

  // ATYP and BND.ADDR, in literals.
  ghost function AddressBytes(a: Address): Bytes
    requires a.WellFormed()
  {
    match a
    case IPv4(o) => [1] + o
    case Domain(n) => [3, |n|] + n
    case IPv6(o) => [4] + o
  }

  // The parser waits exactly while the proxy could still be accepted, so a
  // hopeless stream is refused at the first byte that makes it so.
  lemma WaitsOnlyForHope(host: Bytes, s: Bytes)
    requires |host| < 256
    ensures Judge(host, s) == NeedMore <==> exists t: Bytes :: t != [] && Hope(host, s, t)
  {
    if Judge(host, s) == NeedMore {
      var t := Completion(s);
      CompletionAccepted(host, s);
      assert t != [] && Hope(host, s, t);
    } else {
      forall t: Bytes | t != []
        ensures !Hope(host, s, t)
      {
        JudgeStable(host, s, t);
      }
    }
  }

  // `t` is what is still missing from `s`: nothing of it is left over.
  ghost predicate Hope(host: Bytes, s: Bytes, t: Bytes) {
    Judge(host, s + t) == Accept(|s| + |t|)
  }

  function Zeros(n: nat): (z: Bytes)
    ensures |z| == n
  {
    seq(n, i => 0)
  }

  // Bytes that complete a waiting stream into an accepted one.
  function Completion(s: Bytes): Bytes {
    var shortest: Bytes := [5, 0, 5, 0, 0, 1];
    if |s| < 6 then shortest[|s|..] + Zeros(6)
    else if s[5] == ATYP_IPV4 && |s| <= 12 then Zeros(12 - |s|)
    else if s[5] == ATYP_IPV6 && |s| <= 24 then Zeros(24 - |s|)
    else if |s| == 6 then Zeros(3)
    else if |s| <= 9 + (s[6] as int) then Zeros(9 + (s[6] as int) - |s|)
    else []
  }

  lemma CompletionAccepted(host: Bytes, s: Bytes)
    requires |host| < 256 && Judge(host, s) == NeedMore
    ensures Completion(s) != [] && Hope(host, s, Completion(s))
  {
    var t := Completion(s);
    var u := s + t;
    var r := u[2..];
    assert |s| >= 2 ==> forall k | 0 <= k < |s| - 2 :: r[k] == s[2..][k];
    assert u[0] == SOCKS5 && u[1] == NO_AUTH;
    assert r[0] == SOCKS5 && r[1] == 0;
    if |s| >= 6 {
      assert r[3] == s[5];
    } else {
      assert r[3] == ATYP_IPV4;
    }
  }

  // ------------------------------------------------------------- the handshake

  datatype Stage = Greeting | Reply

  // What a connected handshake has written, given what it heard.
  function WritesFor(host: Bytes, port: int, s: Bytes): seq<Bytes> {
    [[SOCKS5, 1, NO_AUTH]] + (if GreetingAccepted(host, s) then [Request(host, port)] else [])
  }

  // Everything a connected handshake ever writes, byte by byte.
  lemma WritesAre(host: Bytes, port: int, s: Bytes)
    ensures WritesFor(host, port, s)
         == if |s| >= 2 && s[0] == 5 && s[1] == 0 && |host| < 256
            then [[5, 1, 0], [5, 1, 0, 3, |host|] + host + [(port / 256) % 256, port % 256]]
            else [[5, 1, 0]]
  {
    if GreetingAccepted(host, s) {
      var b := Request(host, port);
      RequestBytes(host, port);
      assert b == b[..5] + b[5..5 + |host|] + b[5 + |host|..];
    }
  }

  // The one-shot reading of a stream's greeting, case by case.
  lemma GreetingRead(host: Bytes, port: int, s: Bytes)
    requires s != []
    ensures s[0] != SOCKS5 ==> Judge(host, s) == Reject(NotSocks5)
    ensures s[0] == SOCKS5 && |s| == 1 ==> Judge(host, s) == NeedMore
    ensures s[0] == SOCKS5 && |s| >= 2 && s[1] != NO_AUTH ==> Judge(host, s) == Reject(AuthRequired)
    ensures s[0] == SOCKS5 && |s| >= 2 && s[1] == NO_AUTH && |host| > 255 ==> Judge(host, s) == Reject(HostTooLong)
    ensures GreetingAccepted(host, s) && |s| == 2 ==> Judge(host, s) == NeedMore
    ensures WritesFor(host, port, s)
         == [[SOCKS5, 1, NO_AUTH]] + if GreetingAccepted(host, s) then [Request(host, port)] else []
  {
    hide Request;
  }

  // Until the second byte nothing but the greeting was written; a stream that
  // is waited on after it was accepted, and stays so.
  lemma StillAccepted(host: Bytes, port: int, s: Bytes, chunk: Bytes)
    ensures |s| < 2 ==> WritesFor(host, port, s) == [[SOCKS5, 1, NO_AUTH]]
    ensures |s| >= 2 && Judge(host, s) == NeedMore ==>
              GreetingAccepted(host, s) && GreetingAccepted(host, s + chunk)
              && WritesFor(host, port, s + chunk) == WritesFor(host, port, s)
  {
    hide Request;
  }

  class Handshake {
    const host: Bytes
    const port: int
    var settled: bool
    var buffered: Bytes
    var stage: Stage
    // The socket, as far as the handshake acts on it.
    var listening: bool
    var destroyed: bool
    var writes: seq<Bytes>
    var putBack: Bytes
    // How the returned promise settled.
    var outcome: Outcome
    // Chunks that arrived once the handshake's own data handler was gone.
    var later: Bytes
    // Every byte the data handler was given.
    ghost var heard: Bytes

    ghost predicate Valid()
      reads this
    {
      && settled == (outcome != Waiting)
      && destroyed == outcome.Failed?
      && (listening ==> !settled)
      && (!listening && !settled ==> heard == [] && writes == [])
      && (listening || outcome == Connected ==> writes == WritesFor(host, port, heard))
      && (outcome.Failed? ==> writes == WritesFor(host, port, heard) || (heard == [] && writes == []))
      && (!settled ==>
            && Judge(host, heard) == NeedMore
            && stage == (if |heard| < 2 then Greeting else Reply)
            && buffered == (if |heard| < 2 then heard else heard[2..]))
      && (outcome == Connected ==>
            && Judge(host, heard).Accept?
            && putBack == heard[Judge(host, heard).consumed..])
      && (outcome.Failed? ==>
            if outcome.reason.FromTransport() then Judge(host, heard) == NeedMore
            else Judge(host, heard) == Reject(outcome.reason))
      && (outcome != Connected ==> putBack == [] && later == [])
    }

    constructor (host: Bytes, port: int)
      ensures Valid()
      ensures this.host == host && this.port == port
      ensures outcome == Waiting && heard == [] && !listening
    {
      this.host, this.port := host, port;
      settled, buffered, stage := false, [], Greeting;
      listening, destroyed, writes, putBack := false, false, [], [];
      outcome, later, heard := Waiting, [], [];
    }

    method Fail(why: Failure)
      modifies this
      ensures old(settled) ==> unchanged(this)
      ensures !old(settled) ==>
                && settled && outcome == Failed(why) && destroyed && !listening
                && heard == old(heard) && writes == old(writes)
                && putBack == old(putBack) && later == old(later)
    {
      if settled { return; }
      settled := true;
      listening := false;
      destroyed := true;
      outcome := Failed(why);
    }

    method Done()
      modifies this
      ensures old(settled) ==> unchanged(this)
      ensures !old(settled) ==>
                && settled && outcome == Connected && !listening
                && destroyed == old(destroyed) && heard == old(heard) && writes == old(writes)
                && putBack == old(putBack) && later == old(later)
    {
      if settled { return; }
      settled := true;
      listening := false;
      outcome := Connected;
    }

    // The TCP connection to the proxy is up: greet it and start listening.
    method OnConnect()
      requires Valid() && !settled && !listening
      modifies this
      ensures Valid() && listening && outcome == Waiting && heard == []
      ensures writes == [[SOCKS5, 1, NO_AUTH]]
    {
      writes := writes + [[SOCKS5, 1, NO_AUTH]];
      listening := true;
    }

    // Timeout, socket error, end and close. Whichever comes first wins, and
    // after a settlement none of them changes anything.
    method OnTransport(why: Failure)
      requires Valid() && why.FromTransport()
      modifies this
      ensures Valid() && heard == old(heard) && writes == old(writes)
      ensures outcome == if old(settled) then old(outcome) else Failed(why)
      ensures putBack == old(putBack) && later == old(later)
    {
      Fail(why);
    }

    method OnData(chunk: Bytes)
      requires Valid() && listening && chunk != []
      modifies this
      ensures Valid()
      ensures heard == old(heard) + chunk
      ensures outcome == OutcomeOf(Judge(host, heard)) && listening == (outcome == Waiting)
      ensures outcome == Connected ==> putBack == heard[Judge(host, heard).consumed..] && later == []
      ensures writes == WritesFor(host, port, heard)
    {
      hide Judge, WritesFor;
      heard := heard + chunk;
      buffered := buffered + chunk;
      GreetingRead(host, port, heard);
      StillAccepted(host, port, old(heard), chunk);
      assert |old(heard)| >= 2 ==> heard[2..] == old(heard)[2..] + chunk;
      if stage == Greeting {
        assert buffered == heard;
        if buffered[0] != SOCKS5 { Fail(NotSocks5); return; }
        if |buffered| < 2 { return; }
        if buffered[1] != NO_AUTH { Fail(AuthRequired); return; }
        buffered := buffered[2..];
        if |host| > 255 { Fail(HostTooLong); return; }
        writes := writes + [Request(host, port)];
        stage := Reply;
        if |buffered| == 0 { return; }
      }
      OnReply();
    }

    // The second half of the data handler, on the bytes after the greeting.
    method OnReply()
      requires listening && !settled && outcome == Waiting && !destroyed && putBack == [] && later == []
      requires stage == Reply && |heard| > 2 && buffered == heard[2..]
      requires GreetingAccepted(host, heard) && writes == WritesFor(host, port, heard)
      modifies this
      ensures Valid() && heard == old(heard) && writes == old(writes)
      ensures outcome == OutcomeOf(Judge(host, heard)) && listening == (outcome == Waiting)
      ensures outcome == Connected ==> putBack == heard[Judge(host, heard).consumed..] && later == []
    {
      if buffered[0] != SOCKS5 { Fail(MalformedReply); return; }
      if |buffered| < 2 { return; }
      if buffered[1] != 0 { Fail(Refused(buffered[1])); return; }
      var length := ReplyLength(buffered);
      if length == Undefined { Fail(MalformedReply); return; }
      if length == Unknown || |buffered| < length.bytes { return; }
      var rest := buffered[length.bytes..];
      Done();
      assert rest == heard[2 + length.bytes..];
      if |rest| > 0 { putBack := rest; }
    }

    // Once connected, what was put back is what followed the reply; otherwise
    // nothing is handed on.
    lemma HandsOn()
      requires Valid()
      ensures outcome == Connected ==> Judge(host, heard).Accept? && putBack == heard[Judge(host, heard).consumed..]
      ensures outcome != Connected ==> putBack == [] && later == []
    {
      hide Judge, WritesFor;
    }

    // The socket hands over one chunk. The handshake hears it while its
    // handler is attached; afterwards it belongs to the tunnelled protocol.
    method Arrive(chunk: Bytes)
      requires Valid() && (listening || outcome == Connected) && chunk != []
      modifies this
      ensures Valid() && listening == (outcome == Waiting)
      ensures old(listening) ==> heard == old(heard) + chunk && later == []
      ensures old(listening) ==> writes == WritesFor(host, port, heard)
      ensures old(listening) ==> outcome == OutcomeOf(Judge(host, heard))
      ensures !old(listening) ==> later == old(later) + chunk
      ensures !old(listening) ==> outcome == Connected && heard == old(heard)
      ensures !old(listening) ==> writes == old(writes) && putBack == old(putBack)
    {
      if listening {
        OnData(chunk);
      } else {
        later := later + chunk;
      }
    }
  }

  function Concat(chunks: seq<Bytes>): Bytes {
    if chunks == [] then [] else Concat(chunks[..|chunks| - 1]) + chunks[|chunks| - 1]
  }

  // Chunk independence, byte conservation and framing together: whatever
  // non-empty chunks a proxy stream is cut into, the handshake ends as the
  // one-shot reading of the whole stream says; it wrote the greeting and then,
  // only after an accepted greeting, one request; and the bytes it put back
  // followed by the chunks that came later are the stream after the reply.
  // A refused socket is destroyed, so the proxy's later bytes are lost.
  method Converse(host: Bytes, port: int, chunks: seq<Bytes>)
    returns (outcome: Outcome, writes: seq<Bytes>, tunnelled: Bytes)
    requires forall k | 0 <= k < |chunks| :: chunks[k] != []
    ensures outcome == OutcomeOf(Judge(host, Concat(chunks))) && writes == WritesFor(host, port, Concat(chunks))
    ensures outcome == Connected ==> tunnelled == Concat(chunks)[Judge(host, Concat(chunks)).consumed..]
    ensures outcome != Connected ==> tunnelled == []
  {
    hide *;
    var h := new Handshake(host, port);
    h.OnConnect();
    h.HandsOn();
    Beginning(host, port);
    for i := 0 to |chunks|
      invariant h.Valid() && h.host == host && h.port == port && fresh(h)
      invariant h.listening == (h.outcome == Waiting)
      invariant h.outcome == OutcomeOf(Judge(host, h.heard)) && h.writes == WritesFor(host, port, h.heard)
      invariant h.heard + h.later <= Concat(chunks[..i])
      invariant !h.outcome.Failed? ==> h.heard + h.later == Concat(chunks[..i])
    {
      ConcatOne(chunks, i);
      h.HandsOn();
      if h.listening || h.outcome == Connected {
        Longer(h.heard, h.later, chunks[i]);
        h.Arrive(chunks[i]);
      }
    }
    assert chunks[..|chunks|] == chunks;
    h.HandsOn();
    outcome, writes, tunnelled := h.outcome, h.writes, h.putBack + h.later;
    Decided(Judge(host, h.heard));
    Ending(host, port, h.heard, h.later, Concat(chunks));
  }

  lemma ConcatOne(chunks: seq<Bytes>, i: nat)
    requires i < |chunks|
    ensures Concat(chunks[..i + 1]) == Concat(chunks[..i]) + chunks[i]
  {
    assert chunks[..i + 1][..i] == chunks[..i];
  }

  lemma Longer(heard: Bytes, later: Bytes, chunk: Bytes)
    ensures heard + (later + chunk) == heard + later + chunk
    ensures heard + chunk + [] == heard + chunk && heard + [] + chunk == heard + chunk
  {
  }

  lemma Decided(v: Verdict)
    ensures OutcomeOf(v) == Waiting <==> v == NeedMore
    ensures OutcomeOf(v) == Connected <==> v.Accept?
  {
  }

  // Before the first byte nothing is decided.
  lemma Beginning(host: Bytes, port: int)
    ensures Concat([]) == [] && OutcomeOf(Judge(host, [])) == Waiting
        && WritesFor(host, port, []) == [[SOCKS5, 1, NO_AUTH]]
  {
  }

  // What was heard up to the decision stands for the whole stream.
  lemma Ending(host: Bytes, port: int, heard: Bytes, later: Bytes, all: Bytes)
    requires heard + later <= all && (Judge(host, heard) == NeedMore ==> heard == all)
    ensures Judge(host, all) == Judge(host, heard) && WritesFor(host, port, all) == WritesFor(host, port, heard)
    ensures Judge(host, heard).Accept? && heard + later == all ==>
              Judge(host, heard).consumed <= |heard|
              && heard[Judge(host, heard).consumed..] + later == all[Judge(host, heard).consumed..]
  {
    assert all == heard + all[|heard|..];
    JudgeStable(host, heard, all[|heard|..]);
    ConsumedWithin(host, heard);
    hide GreetingAccepted, Judge, Request;
  }

  lemma ConsumedWithin(host: Bytes, s: Bytes)
    ensures Judge(host, s).Accept? ==> Judge(host, s).consumed <= |s|
  {
  }
}
