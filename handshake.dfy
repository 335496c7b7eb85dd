/**
 * The connection set-up of `RFBHandshake` and `RFBInitialize`
 * (rfb.py:580-678) as pure functions of the bytes the server sends:
 * the ProtocolVersion exchange (section 7.1.1 of RFC 6143), the security
 * handshake of versions 3.3, 3.7 and 3.8 with security type None
 * (sections 7.1.2, 7.1.3 and 7.2.1), then ClientInit and ServerInit
 * (sections 7.3.1 and 7.3.2).  Each step says what the client wrote and
 * what input it left unread; `Rfb.RfbEndpoint` runs the same steps over
 * its connection and is proved to agree with them.
 */
module Setup {
  import opened Wrappers
  import opened BigEndian
  import opened Errors
  import opened Wire
  import opened Messages

  /** What one step of the conversation produced, wrote and left unread. */
  datatype Exchange<+T> = Exchange(outcome: Result<T, RfbError>, written: seq<byte>, rest: seq<byte>)

  // ---- ProtocolVersion ----

  const Zero: byte := 0x30

  predicate IsDigit(b: byte) { Zero <= b <= 0x39 }

  /** The value of three decimal digit bytes. */
  function Digits(s: seq<byte>): nat
    requires |s| == 3 && IsDigit(s[0]) && IsDigit(s[1]) && IsDigit(s[2])
  {
    100 * (s[0] - Zero) + 10 * (s[1] - Zero) + (s[2] - Zero)
  }

  /** `n` written with `%03d`. */
  function ThreeDigits(n: nat): (r: seq<byte>)
    requires n < 1000
    ensures |r| == 3 && IsDigit(r[0]) && IsDigit(r[1]) && IsDigit(r[2])
  {
    [Zero + n / 100, Zero + n / 10 % 10, Zero + n % 10]
  }

  /** The string the version check accepts: `RFB ddd.ddd` and a newline, twelve bytes. */
  predicate IsVersionString(v: seq<byte>)
  {
    && |v| == VersionLength
    && v[..4] == [0x52, 0x46, 0x42, 0x20]
    && IsDigit(v[4]) && IsDigit(v[5]) && IsDigit(v[6])
    && v[7] == 0x2E
    && IsDigit(v[8]) && IsDigit(v[9]) && IsDigit(v[10])
    && v[11] == 0x0A
  }

  function MajorOf(v: seq<byte>): nat
    requires IsVersionString(v)
  {
    Digits(v[4..7])
  }

  function MinorOf(v: seq<byte>): nat
    requires IsVersionString(v)
  {
    Digits(v[8..11])
  }

  /** `"RFB %03d.%03d\n" % (major, minor)`. */
  function VersionBytes(major: nat, minor: nat): (v: seq<byte>)
    requires major < 1000 && minor < 1000
    ensures |v| == VersionLength
  {
    [0x52, 0x46, 0x42, 0x20] + ThreeDigits(major) + [0x2E] + ThreeDigits(minor) + [0x0A]
  }

  lemma ThreeDigitsRoundTrip(n: nat)
    requires n < 1000
    ensures Digits(ThreeDigits(n)) == n
  {
  }

  lemma DigitsRoundTrip(s: seq<byte>)
    requires |s| == 3 && IsDigit(s[0]) && IsDigit(s[1]) && IsDigit(s[2])
    ensures Digits(s) < 1000 && ThreeDigits(Digits(s)) == s
  {
    DecimalDigits(s[0] as int - Zero as int, s[1] as int - Zero as int, s[2] as int - Zero as int);
  }

  /** Three decimal digits read back from the number they make. */
  lemma DecimalDigits(a: int, b: int, c: int)
    requires 0 <= a < 10 && 0 <= b < 10 && 0 <= c < 10
    ensures var n := 100 * a + 10 * b + c; n / 100 == a && n / 10 % 10 == b && n % 10 == c
  {
  }

  /** A version string the client writes is one the check accepts, and it reads back as written. */
  lemma VersionRoundTrip(major: nat, minor: nat)
    requires major < 1000 && minor < 1000
    ensures var v := VersionBytes(major, minor);
      IsVersionString(v) && MajorOf(v) == major && MinorOf(v) == minor
  {
    var v := VersionBytes(major, minor);
    assert v[4..7] == ThreeDigits(major) && v[8..11] == ThreeDigits(minor);
    ThreeDigitsRoundTrip(major);
    ThreeDigitsRoundTrip(minor);
  }

  /** Every accepted version string is the one its two numbers print as. */
  lemma VersionStringDetermined(v: seq<byte>)
    requires IsVersionString(v)
    ensures MajorOf(v) < 1000 && MinorOf(v) < 1000 && VersionBytes(MajorOf(v), MinorOf(v)) == v
  {
    DigitsRoundTrip(v[4..7]);
    DigitsRoundTrip(v[8..11]);
    assert v == v[..4] + v[4..7] + [v[7]] + v[8..11] + [v[11]];
  }

  /**
   * The minor version the client answers with: 3.3, 3.7 and 3.8 as they
   * are, anything later as 3.8; earlier majors and the 3.x in between
   * are refused.  A major above 3 is answered as 3.
   */
  function Negotiate(major: nat, minor: nat): (r: Result<nat, RfbError>)
    ensures r.Err? <==> major < 3 || (major == 3 && minor <= 8 && minor !in {3, 7, 8})
    ensures r.Err? ==> r.error == BadVersion
    ensures r.Ok? ==> r.value <= 8 && r.value <= minor && (r.value == minor || r.value == 8)
  {
    if major < 3 || (major == 3 && minor <= 8 && minor !in {3, 7, 8}) then Err(BadVersion)
    else Ok(if minor < 8 then minor else 8)
  }

  // ---- Security ----

  const SecTypeNone: nat := 1

  /** The values of a decoded SecTypes list, one byte each. */
  function SecurityTypes(es: seq<seq<int>>): (r: seq<int>)
    requires forall k :: 0 <= k < |es| ==> |es[k]| == 1
    ensures |r| == |es| && forall k :: 0 <= k < |es| ==> r[k] == es[k][0]
  {
    seq(|es|, k requires 0 <= k < |es| => es[k][0])
  }

  /** The two failures that are followed by the server's reason string. */
  datatype Refusal = NoSecurityTypes | SecurityFailed

  /** The error a refusal raises, carrying the server's reason. */
  function RefusalError(k: Refusal, reason: seq<byte>): RfbError
  {
    match k
    case NoSecurityTypes => BadSecType(Some(reason))
    case SecurityFailed => ServerError(reason)
  }

  /** A failure whose reason string follows in the stream: the error carries what was read. */
  function WithReason(inp: seq<byte>, k: Refusal): (r: Taken<nat>)
    ensures r.outcome.Err?
  {
    var s := TakeString(FailureReason, inp);
    match s.outcome
    case Err(e) => Taken(Err(e), s.rest)
    case Ok(reason) => Taken(Err(RefusalError(k, reason)), s.rest)
  }

  /**
   * Version 3.3 as the standard lays it out: the server chooses the
   * security type and sends it as a U32 (appendix A.1 of RFC 6143); only
   * None is accepted.  The handshake itself reads the type as the code
   * does, with `SecurityV33AsWritten`.
   */
  const SecType33: seq<Field> := [U32]

  function SecurityV33(inp: seq<byte>): (r: Exchange<nat>)
    ensures r.written == []
    ensures r.outcome.Ok? ==> r.outcome.value == SecTypeNone && 4 <= |inp| && r.rest == inp[4..]
  {
    var t := TakeFields(SecType33, inp);
    match t.outcome
    case Err(e) => Exchange(Err(e), [], t.rest)
    case Ok(vs) =>
      if vs[0] != SecTypeNone then Exchange(Err(BadSecType(None)), [], t.rest)
      else Exchange(Ok(SecTypeNone), [], t.rest)
  }

  /**
   * Version 3.3 as `RFBHandshake` does it: the type the server chose is
   * read as a single byte (`SecType`), and only None is accepted.
   */
  function SecurityV33AsWritten(inp: seq<byte>): (r: Exchange<nat>)
    ensures r.written == []
    ensures r.outcome.Ok? <==> 1 <= |inp| && inp[0] == 1
    ensures r.outcome.Ok? ==> r.outcome.value == SecTypeNone && r.rest == inp[1..]
  {
    var t := TakeFields(SecType, inp);
    match t.outcome
    case Err(e) => Exchange(Err(e), [], t.rest)
    case Ok(vs) =>
      if vs[0] != SecTypeNone then Exchange(Err(BadSecType(None)), [], t.rest)
      else Exchange(Ok(SecTypeNone), [], t.rest)
  }

  /**
   * Versions 3.7 and 3.8: the server lists the types it offers, the
   * client picks None, and 3.8 then reads the server's verdict.
   */
  function SecurityList(minor: nat, inp: seq<byte>): (r: Exchange<nat>)
    requires minor == 7 || minor == 8
    ensures r.outcome.Ok? ==> r.outcome.value == SecTypeNone
    ensures r.written == [] || r.written == [1]
  {
    var l := TakeList(SecTypes, inp);
    match l.outcome
    case Err(e) => Exchange(Err(e), [], l.rest)
    case Ok(es) =>
      var types := SecurityTypes(es);
      if types == [] then
        var w := WithReason(l.rest, NoSecurityTypes);
        Exchange(w.outcome, [], w.rest)
      else if SecTypeNone !in types then
        Exchange(Err(if minor == 7 then BadSecType(None) else FailedHandshake), [], l.rest)
      else if minor == 7 then Exchange(Ok(SecTypeNone), Pack(SecType, [SecTypeNone]), l.rest)
      else SecurityResult(l.rest)
  }

  /** Version 3.8 after the client's choice: a zero result, or a failure with its reason. */
  function SecurityResult(inp: seq<byte>): (r: Exchange<nat>)
    ensures r.outcome.Ok? ==> r.outcome.value == SecTypeNone
    ensures r.written == [1]
  {
    var choice := Pack(SecType, [SecTypeNone]);
    var res := TakeFields(SecResult, inp);
    match res.outcome
    case Err(e) => Exchange(Err(e), choice, res.rest)
    case Ok(code) =>
      if code[0] != 0 then
        var w := WithReason(res.rest, SecurityFailed);
        Exchange(w.outcome, choice, w.rest)
      else Exchange(Ok(SecTypeNone), choice, res.rest)
  }

  /** The security handshake of the negotiated minor version; only type None is ever chosen. */
  function Security(minor: nat, inp: seq<byte>): (r: Exchange<nat>)
    ensures r.outcome.Ok? ==> r.outcome.value == SecTypeNone && minor in {3, 7, 8}
    ensures r.written == if minor in {7, 8} && r.written != [] then [1] else []
  {
    if minor == 3 then SecurityV33AsWritten(inp)
    else if minor == 7 || minor == 8 then SecurityList(minor, inp)
    else Exchange(Err(BadVersion), [], inp)
  }

  /** The state `RFBHandshake` leaves in the endpoint's fields. */
  datatype Session = Session(major: nat, minor: nat, sectype: nat)

  /** `RFBHandshake`: the version exchange, then the security handshake. */
  function Handshake(inp: seq<byte>): (r: Exchange<Session>)
  {
    var v := Version(inp);
    match v.outcome
    case Err(e) => Exchange(Err(e), [], v.rest)
    case Ok(minor) =>
      var sec := Security(minor, v.rest);
      var outcome := match sec.outcome
        case Err(e) => Err(e)
        case Ok(t) => Ok(Session(3, minor, t));
      Exchange(outcome, v.written + sec.written, sec.rest)
  }

  /**
   * The version exchange: read the server's version string, settle on a
   * minor version and answer with it.  Nothing is written unless the
   * string is well formed and accepted.
   */
  function Version(inp: seq<byte>): (r: Exchange<nat>)
    ensures r.outcome.Ok? <==>
      VersionLength <= |inp| && IsVersionString(inp[..VersionLength])
      && Negotiate(MajorOf(inp[..VersionLength]), MinorOf(inp[..VersionLength])).Ok?
    ensures r.outcome.Ok? ==>
      && r.outcome.value == Negotiate(MajorOf(inp[..VersionLength]), MinorOf(inp[..VersionLength])).value
      && r.written == VersionBytes(3, r.outcome.value) && r.rest == inp[VersionLength..]
    ensures r.outcome.Err? ==> r.written == []
  {
    var v := TakeBytes(VersionLength, inp);
    match v.outcome
    case Err(e) => Exchange(Err(e), [], v.rest)
    case Ok(s) =>
      if !IsVersionString(s) then Exchange(Err(BadFormat), [], v.rest)
      else
        match Negotiate(MajorOf(s), MinorOf(s))
        case Err(e) => Exchange(Err(e), [], v.rest)
        case Ok(minor) => Exchange(Ok(minor), VersionBytes(3, minor), v.rest)
  }

  // ---- Initialisation ----

  /** What ServerInit tells the client: the framebuffer size, its pixel format and its name. */
  datatype ServerInit = ServerInit(width: u16, height: u16, format: PixelFormat, name: seq<byte>)

  /** `RFBInitialize`: ClientInit asking to share the desktop, then ServerInit. */
  function Initialize(inp: seq<byte>): (r: Exchange<ServerInit>)
    ensures r.written == [1]
  {
    var size := TakeFields(ServerInit1, inp);
    match size.outcome
    case Err(e) => Exchange(Err(e), [1], size.rest)
    case Ok(wh) => InitializeFormat(wh[0], wh[1], size.rest)
  }

  /** The rest of ServerInit once the framebuffer size has been read. */
  function InitializeFormat(width: u16, height: u16, inp: seq<byte>): (r: Exchange<ServerInit>)
    ensures r.written == [1]
  {
    var pf := TakePixelFormat(inp);
    match pf.outcome
    case Err(e) => Exchange(Err(e), [1], pf.rest)
    case Ok(format) =>
      var name := TakeString(ServerInit2, pf.rest);
      match name.outcome
      case Err(e) => Exchange(Err(e), [1], name.rest)
      case Ok(n) => Exchange(Ok(ServerInit(width, height, format, n)), [1], name.rest)
  }

  // ---- What the handshake achieves ----

  /** The security types a server offers, as elements of the SecTypes list. */
  function TypeList(types: seq<byte>): (r: seq<seq<int>>)
    ensures |r| == |types|
    ensures forall k :: 0 <= k < |r| ==> r[k] == [types[k] as int] && Conforms(SecTypes.elem, r[k])
  {
    if types == [] then [] else [[types[0] as int]] + TypeList(types[1..])
  }

  /**
   * What a server that accepts type None sends after its version string,
   * in the layout the client reads: in 3.3 the type as one byte.
   */
  function SecurityOffer(minor: nat, types: seq<byte>): seq<byte>
    requires |types| < 0x100
  {
    if minor == 3 then Pack(SecType, [SecTypeNone])
    else if minor == 7 then PackList(SecTypes, TypeList(types))
    else PackList(SecTypes, TypeList(types)) + Pack(SecResult, [0])
  }

  /** The client's answer to such a server: nothing in 3.3, its choice of None otherwise. */
  function Choice(minor: nat): seq<byte>
  {
    if minor == 3 then [] else [1]
  }

  lemma SecurityTypesOfList(types: seq<byte>)
    ensures SecurityTypes(TypeList(types)) == types
  {
  }

  /** A server that offers type None gets it, and all of its offer is consumed. */
  lemma SecuritySucceeds(minor: nat, types: seq<byte>, rest: seq<byte>)
    requires minor in {3, 7, 8} && |types| < 0x100
    requires minor != 3 ==> SecTypeNone in types
    ensures Security(minor, SecurityOffer(minor, types) + rest) == Exchange(Ok(SecTypeNone), Choice(minor), rest)
  {
    if minor == 3 {
      TakeFieldsPack(SecType, [SecTypeNone], rest);
    } else if minor == 7 {
      SecurityListSucceeds(7, types, rest);
    } else {
      var verdict := Pack(SecResult, [0]);
      assert SecurityOffer(minor, types) + rest == PackList(SecTypes, TypeList(types)) + (verdict + rest);
      SecurityListSucceeds(8, types, verdict + rest);
      TakeFieldsPack(SecResult, [0], rest);
    }
  }

  /** The list step with None on offer: 3.7 is done, 3.8 goes on to the result. */
  lemma SecurityListSucceeds(minor: nat, types: seq<byte>, rest: seq<byte>)
    requires minor in {7, 8} && |types| < 0x100 && SecTypeNone in types
    ensures SecurityList(minor, PackList(SecTypes, TypeList(types)) + rest)
      == if minor == 7 then Exchange(Ok(SecTypeNone), [1], rest) else SecurityResult(rest)
  {
    TakeListPack(SecTypes, TypeList(types), rest);
    SecurityTypesOfList(types);
  }

  /** In 3.7 and 3.8 an offer without None is refused, with the error of each version. */
  lemma SecurityRefused(minor: nat, types: seq<byte>, rest: seq<byte>)
    requires minor in {7, 8} && 0 < |types| < 0x100 && SecTypeNone !in types
    ensures Security(minor, PackList(SecTypes, TypeList(types)) + rest)
      == Exchange(Err(if minor == 7 then BadSecType(None) else FailedHandshake), [], rest)
  {
    TakeListPack(SecTypes, TypeList(types), rest);
    SecurityTypesOfList(types);
  }

  lemma WithReasonPack(reason: seq<byte>, rest: seq<byte>, k: Refusal)
    requires |reason| < 0x1_0000_0000
    ensures WithReason(PackString(FailureReason, reason) + rest, k) == Taken(Err(RefusalError(k, reason)), rest)
  {
    TakeStringPack(FailureReason, reason, rest);
  }

  /** An empty offer is followed by the server's reason, which the error carries. */
  lemma SecurityNoTypes(minor: nat, reason: seq<byte>, rest: seq<byte>)
    requires minor in {7, 8} && |reason| < 0x1_0000_0000
    ensures Security(minor, PackList(SecTypes, []) + PackString(FailureReason, reason) + rest)
      == Exchange(Err(BadSecType(Some(reason))), [], rest)
  {
    var tail := PackString(FailureReason, reason) + rest;
    assert PackList(SecTypes, []) + PackString(FailureReason, reason) + rest == PackList(SecTypes, []) + tail;
    TakeListPack(SecTypes, [], tail);
    WithReasonPack(reason, rest, NoSecurityTypes);
  }

  /** In 3.8 a non-zero security result is followed by the reason, which the error carries. */
  lemma SecurityResultFailed(code: u32, reason: seq<byte>, rest: seq<byte>)
    requires code != 0 && |reason| < 0x1_0000_0000
    ensures SecurityResult(Pack(SecResult, [code]) + PackString(FailureReason, reason) + rest)
      == Exchange(Err(ServerError(reason)), [1], rest)
  {
    var tail := PackString(FailureReason, reason) + rest;
    assert Pack(SecResult, [code]) + PackString(FailureReason, reason) + rest == Pack(SecResult, [code]) + tail;
    TakeFieldsPack(SecResult, [code], tail);
    WithReasonPack(reason, rest, SecurityFailed);
  }

  /**
   * Against any server version the client accepts and answers with 3.3,
   * 3.7 or 3.8, and a server that offers type None, the handshake ends
   * with that version and type None, having written the version reply and
   * the choice, and consuming exactly what the server sent.
   */
  lemma HandshakeSucceeds(major: nat, minor: nat, types: seq<byte>, rest: seq<byte>)
    requires major < 1000 && minor < 1000 && |types| < 0x100
    requires Negotiate(major, minor).Ok? && Negotiate(major, minor).value in {3, 7, 8}
    requires Negotiate(major, minor).value != 3 ==> SecTypeNone in types
    ensures var m := Negotiate(major, minor).value;
      Handshake(VersionBytes(major, minor) + SecurityOffer(m, types) + rest)
        == Exchange(Ok(Session(3, m, SecTypeNone)), VersionBytes(3, m) + Choice(m), rest)
  {
    var m := Negotiate(major, minor).value;
    var v := VersionBytes(major, minor);
    var tail := SecurityOffer(m, types) + rest;
    assert v + SecurityOffer(m, types) + rest == v + tail;
    TakeBytesPrefix(v, tail);
    VersionRoundTrip(major, minor);
    SecuritySucceeds(m, types, rest);
  }

  /**
   * The client writes its version reply exactly when the server's version
   * string is well formed and accepted; a successful handshake always
   * ends in 3.3, 3.7 or 3.8 with type None, never above the server's version.
   */
  lemma HandshakeOutcome(inp: seq<byte>)
    ensures var r := Handshake(inp);
      r.written != [] <==>
        VersionLength <= |inp| && IsVersionString(inp[..VersionLength])
        && Negotiate(MajorOf(inp[..VersionLength]), MinorOf(inp[..VersionLength])).Ok?
    ensures var r := Handshake(inp);
      r.outcome.Ok? ==>
        && r.outcome.value.major == 3 && r.outcome.value.minor in {3, 7, 8}
        && r.outcome.value.sectype == SecTypeNone
        && r.outcome.value.minor <= MinorOf(inp[..VersionLength])
        && r.written[..VersionLength] == VersionBytes(3, r.outcome.value.minor)
  {
  }

  /** A ServerInit message as the server sends it. */
  function EncodeServerInit(si: ServerInit): seq<byte>
    requires |si.name| < 0x1_0000_0000
  {
    Pack(ServerInit1, [si.width, si.height]) + EncodePixelFormat(si.format) + PackString(ServerInit2, si.name)
  }

  /** Initialisation reads back exactly the ServerInit the server sent, after writing "shared". */
  lemma InitializeRoundTrip(si: ServerInit, rest: seq<byte>)
    requires |si.name| < 0x1_0000_0000
    ensures Initialize(EncodeServerInit(si) + rest) == Exchange(Ok(si), [1], rest)
  {
    var size, format, name := Pack(ServerInit1, [si.width, si.height]), EncodePixelFormat(si.format), PackString(ServerInit2, si.name);
    var tail := format + (name + rest);
    assert EncodeServerInit(si) == size + format + name;
    Appended(size + format, name, rest);
    Appended(size, format, name + rest);
    TakeFieldsPack(ServerInit1, [si.width, si.height], tail);
    PixelFormatRoundTrip(si.format, name + rest);
    TakeStringPack(ServerInit2, si.name, rest);
  }

  /**
   * `RFBEndpoint.__init__`'s set-up: the handshake, then, when it
   * succeeds, the initialisation on what follows.
   */
  function Connection(inp: seq<byte>): (r: Exchange<(Session, ServerInit)>)
    ensures r.outcome.Ok? ==> Handshake(inp).outcome == Ok(r.outcome.value.0)
    ensures r.outcome.Ok? ==> r.written == Handshake(inp).written + [1]
  {
    var h := Handshake(inp);
    match h.outcome
    case Err(e) => Exchange(Err(e), h.written, h.rest)
    case Ok(session) =>
      var i := Initialize(h.rest);
      var outcome := match i.outcome
        case Err(e) => Err(e)
        case Ok(si) => Ok((session, si));
      Exchange(outcome, h.written + i.written, i.rest)
  }

  /**
   * A server that accepts the client's version, offers type None and
   * sends its ServerInit gives a connection on that version with that
   * framebuffer, and nothing of what follows is consumed.
   */
  lemma ConnectionSucceeds(major: nat, minor: nat, types: seq<byte>, si: ServerInit, rest: seq<byte>)
    requires major < 1000 && minor < 1000 && |types| < 0x100 && |si.name| < 0x1_0000_0000
    requires Negotiate(major, minor).Ok? && Negotiate(major, minor).value in {3, 7, 8}
    requires Negotiate(major, minor).value != 3 ==> SecTypeNone in types
    ensures var m := Negotiate(major, minor).value;
      Connection(VersionBytes(major, minor) + SecurityOffer(m, types) + EncodeServerInit(si) + rest)
        == Exchange(Ok((Session(3, m, SecTypeNone), si)), VersionBytes(3, m) + Choice(m) + [1], rest)
  {
    var m := Negotiate(major, minor).value;
    var init := EncodeServerInit(si) + rest;
    assert VersionBytes(major, minor) + SecurityOffer(m, types) + EncodeServerInit(si) + rest
      == VersionBytes(major, minor) + SecurityOffer(m, types) + init;
    HandshakeSucceeds(major, minor, types, init);
    InitializeRoundTrip(si, rest);
  }

  /**
   * A version 3.3 server that sends type None as the standard's U32
   * `0 0 0 1` is refused when the type is read as one byte, and accepted
   * when it is read as a U32.
   */
  lemma SecurityV33AsWrittenRefusesNone(rest: seq<byte>)
    ensures SecurityV33AsWritten(Pack(SecType33, [SecTypeNone]) + rest).outcome == Err(BadSecType(None))
    ensures SecurityV33(Pack(SecType33, [SecTypeNone]) + rest).outcome == Ok(SecTypeNone)
  {
    TakeFieldsPack(SecType33, [SecTypeNone], rest);
    assert Pack(SecType33, [SecTypeNone]) == [0, 0, 0, 1];
  }
}
