/** Printing an invitation as a short text, and reading one of either version back.
    (src/join_ticket.py:56-284) */
module JoinTicket {
  import opened Wrappers
  import opened Base32

  const VERSION := 2
  const LEGACY_VERSION := 1
  const FAMILY_V4 := 4
  const FAMILY_V6 := 6
  const SEED_BYTES := 8
  const NODE_BYTES := 20
  const CHECK_BYTES := 2
  const MAX_TEXT := 128

  /** An address as it packs: four bytes or sixteen. */
  type Address = a: Bytes | |a| == 4 || |a| == 16 witness [0, 0, 0, 0]

  datatype Endpoint = Endpoint(address: Address, port: int)

  /** An endpoint as a caller writes it; nothing for a part that does not read as one. */
  datatype Asked = Asked(address: Option<Address>, port: Option<int>)

  /** What a ticket says: where to connect, through whom, the invite code's seed, and the
      minute it expires. */
  datatype Ticket = Ticket(direct: Option<Endpoint>, relay: Option<Endpoint>, node: Bytes, seed: Bytes, minutes: nat)

  datatype Error =
    | WrongSeed | NeedsNode | NotNumeric | PortOutOfRange | NowhereToConnect | ExpiryTooFar
    | Empty | TooLong | NotATicket | Truncated | Damaged | UnknownVersion | UnknownFamily | WrongLength

  /** Two bytes that follow from a body. */
  type Checksum = Bytes -> (Byte, Byte)

  // ------------------------------------------------------------------ numbers on the wire

  function Pack2(v: nat): (r: Bytes)
    requires v < 0x1_0000
    ensures |r| == 2
  {
    [v / 0x100, v % 0x100]
  }

  function Pack4(v: nat): (r: Bytes)
    requires v < 0x1_0000_0000
    ensures |r| == 4
  {
    Pack2(v / 0x1_0000) + Pack2(v % 0x1_0000)
  }

  function Unpack(b: Bytes): nat {
    if b == [] then 0 else Unpack(b[..|b| - 1]) * 0x100 + b[|b| - 1]
  }

  lemma UnpackPack2(v: nat)
    requires v < 0x1_0000
    ensures Unpack(Pack2(v)) == v
  {
    assert Pack2(v)[..1] == [v / 0x100];
    assert Unpack([v / 0x100]) == v / 0x100 by {
      assert [v / 0x100][..0] == [];
    }
  }

  lemma UnpackPack4(v: nat)
    requires v < 0x1_0000_0000
    ensures Unpack(Pack4(v)) == v
  {
    var b := Pack4(v);
    assert b[..3][..2] == Pack2(v / 0x1_0000) && b[..3] == b[..|b| - 1];
    UnpackPack2(v / 0x1_0000);
  }

  lemma UnpackFits(b: Bytes)
    ensures |b| == 2 ==> Unpack(b) < 0x1_0000
    ensures |b| == 4 ==> Unpack(b) < 0x1_0000_0000
  {
    if |b| == 2 {
      UnpackTwo(b);
    } else if |b| == 4 {
      UnpackTwo(b[..2]);
      assert b[..3][..2] == b[..2];
      assert Unpack(b[..3]) == Unpack(b[..2]) * 0x100 + b[2];
    }
  }

  lemma UnpackTwo(b: Bytes)
    requires |b| == 2
    ensures Unpack(b) == b[0] as nat * 0x100 + b[1]
  {
    assert b[..1][..0] == [];
    assert Unpack(b[..1]) == b[0];
  }

  // ------------------------------------------------------------------ building

  function PackEndpoint(e: Endpoint): (r: Bytes)
    requires PortOk(e.port)
    ensures |r| == |e.address| + 2
  {
    e.address + Pack2(e.port)
  }

  predicate PortOk(port: int) {
    1 <= port <= 65535
  }

  function Resolve(asked: Asked): Result<Endpoint, Error> {
    if asked.address.None? then Err(NotNumeric)
    else if asked.port.None? || !PortOk(asked.port.value) then Err(PortOutOfRange)
    else Ok(Endpoint(asked.address.value, asked.port.value))
  }

  predicate IsV6(e: Endpoint) {
    |e.address| == 16
  }

  function Flags(direct: Option<Endpoint>, relay: Option<Endpoint>): (f: nat)
    ensures f < 16
  {
    (if direct.Some? then if IsV6(direct.value) then 3 else 1 else 0)
    + if relay.Some? then if IsV6(relay.value) then 12 else 4 else 0
  }

  /** A ticket that can be written down. */
  predicate Printable(t: Ticket) {
    && (t.direct.Some? || t.relay.Some?)
    && (t.direct.Some? ==> PortOk(t.direct.value.port))
    && (t.relay.Some? ==> PortOk(t.relay.value.port) && |t.node| == NODE_BYTES)
    && (t.relay.None? ==> t.node == [])
    && |t.seed| == SEED_BYTES && t.minutes < 0x1_0000_0000
  }

  function Routes(t: Ticket): Bytes
    requires Printable(t)
  {
    (if t.direct.Some? then PackEndpoint(t.direct.value) else [])
    + if t.relay.Some? then PackEndpoint(t.relay.value) + t.node else []
  }

  function Body(t: Ticket): Bytes
    requires Printable(t)
  {
    [VERSION * 16 + Flags(t.direct, t.relay)] + Routes(t) + t.seed + Pack4(t.minutes)
  }

  function Sealed(body: Bytes, check: Checksum): (r: Bytes)
    ensures |r| == |body| + CHECK_BYTES
  {
    body + [check(body).0, check(body).1]
  }

  function Print(t: Ticket, check: Checksum): string
    requires Printable(t)
  {
    Encode(Sealed(Body(t), check))
  }

  /** The minute a time falls in, and none before the epoch. */
  function Minute(at: real): nat {
    if (at / 60.0).Floor > 0 then (at / 60.0).Floor else 0
  }

  /** What a caller's arguments come to, refused in the order they are looked at. */
  function Meant(direct: Option<Asked>, seed: Bytes, expiresAt: real, relay: Option<Asked>,
                 node: Bytes): Result<Ticket, Error> {
    if |seed| != SEED_BYTES then Err(WrongSeed)
    else if direct.Some? && Resolve(direct.value).Err? then Err(Resolve(direct.value).error)
    else if relay.Some? && |node| != NODE_BYTES then Err(NeedsNode)
    else if relay.Some? && Resolve(relay.value).Err? then Err(Resolve(relay.value).error)
    else if direct.None? && relay.None? then Err(NowhereToConnect)
    else if Minute(expiresAt) >= 0x1_0000_0000 then Err(ExpiryTooFar)
    else Ok(Ticket(if direct.Some? then Some(Resolve(direct.value).value) else None,
                   if relay.Some? then Some(Resolve(relay.value).value) else None,
                   if relay.Some? then node else [], seed, Minute(expiresAt)))
  }

  method EncodeTicket(direct: Option<Asked>, seed: Bytes, expiresAt: real, relay: Option<Asked>, node: Bytes,
                      check: Checksum) returns (r: Result<string, Error>)
    ensures var meant := Meant(direct, seed, expiresAt, relay, node);
            if meant.Err? then r == Err(meant.error)
            else Printable(meant.value) && r == Ok(Print(meant.value, check))
  {
    hide Minute, Pack4, PackEndpoint, Sealed, Encode;
    if |seed| != SEED_BYTES {
      return Err(WrongSeed);
    }
    var flags: nat := 0;
    var parts: Bytes := [];
    if direct.Some? {
      var e := Resolve(direct.value);
      if e.Err? {
        return Err(e.error);
      }
      flags := flags + if IsV6(e.value) then 3 else 1;
      parts := parts + PackEndpoint(e.value);
    }
    if relay.Some? {
      if |node| != NODE_BYTES {
        return Err(NeedsNode);
      }
      var e := Resolve(relay.value);
      if e.Err? {
        return Err(e.error);
      }
      flags := flags + if IsV6(e.value) then 12 else 4;
      parts := parts + PackEndpoint(e.value);
      parts := parts + node;
    }
    if flags == 0 {
      return Err(NowhereToConnect);
    }
    var minutes := Minute(expiresAt);
    if minutes >= 0x1_0000_0000 {
      return Err(ExpiryTooFar);
    }
    ghost var t := Meant(direct, seed, expiresAt, relay, node).value;
    assert parts == Routes(t);
    var body: Bytes := [VERSION * 16 + flags] + parts + seed + Pack4(minutes);
    return Ok(Encode(Sealed(body, check)));
  }

  // ------------------------------------------------------------------ reading

  /** A place in a body; asking for more than is left gives nothing and moves nowhere. */
  class Reader {
    const body: Bytes
    var at: nat

    ghost predicate Valid()
      reads this
    {
      at <= |body|
    }

    constructor (body: Bytes)
      requires |body| >= 1
      ensures Valid() && this.body == body && at == 1
    {
      this.body, at := body, 1;
    }

    method Take(count: nat) returns (piece: Option<Bytes>)
      requires Valid()
      modifies `at
      ensures Valid()
      ensures if old(at) + count <= |body| then at == old(at) + count && piece == Some(body[old(at)..at])
              else piece.None? && at == old(at)
    {
      if at + count > |body| {
        return None;
      }
      piece := Some(body[at..at + count]);
      at := at + count;
    }

    /** An address of that size and a port that can be dialled. */
    method TakeEndpoint(size: nat) returns (e: Result<Endpoint, Error>)
      requires Valid() && (size == 4 || size == 16) && at + size + 2 <= |body|
      modifies `at
      ensures Valid() && at == old(at) + size + 2
      ensures e == ReadEndpoint(body[old(at)..at])
    {
      ghost var from := at;
      var address := Take(size);
      var port := Take(2);
      assert body[from..at][..size] == address.value && body[from..at][size..] == port.value;
      if !PortOk(Unpack(port.value)) {
        return Err(PortOutOfRange);
      }
      return Ok(Endpoint(address.value, Unpack(port.value)));
    }
  }

  function ReadEndpoint(b: Bytes): Result<Endpoint, Error>
    requires |b| == 6 || |b| == 18
  {
    var size := |b| - 2;
    if PortOk(Unpack(b[size..])) then Ok(Endpoint(b[..size], Unpack(b[size..]))) else Err(PortOutOfRange)
  }

  predicate HasDirect(flags: nat) { flags % 2 == 1 }

  predicate HasRelay(flags: nat) { flags / 4 % 2 == 1 }

  function DirectSize(flags: nat): nat {
    if HasDirect(flags) then if flags / 2 % 2 == 1 then 18 else 6 else 0
  }

  function RelaySize(flags: nat): nat {
    if HasRelay(flags) then if flags / 8 % 2 == 1 then 18 else 6 else 0
  }

  function RouteSize(flags: nat): nat {
    DirectSize(flags) + RelaySize(flags) + if HasRelay(flags) then NODE_BYTES else 0
  }

  /** The tail every version shares: seed and minutes. */
  function Tail(body: Bytes, at: nat): (Bytes, nat)
    requires at + SEED_BYTES + 4 == |body|
  {
    (body[at..at + SEED_BYTES], Unpack(body[at + SEED_BYTES..]))
  }

  function Read2(body: Bytes, flags: nat): Result<Ticket, Error> {
    if !HasDirect(flags) && !HasRelay(flags) then Err(NowhereToConnect)
    else if |body| != 1 + RouteSize(flags) + SEED_BYTES + 4 then Err(WrongLength)
    else
      var d := 1 + DirectSize(flags);
      var r := d + RelaySize(flags);
      var end := 1 + RouteSize(flags);
      var (seed, minutes) := Tail(body, end);
      if HasDirect(flags) && ReadEndpoint(body[1..d]).Err? then Err(PortOutOfRange)
      else if HasRelay(flags) && ReadEndpoint(body[d..r]).Err? then Err(PortOutOfRange)
      else Ok(Ticket(if HasDirect(flags) then Some(ReadEndpoint(body[1..d]).value) else None,
                     if HasRelay(flags) then Some(ReadEndpoint(body[d..r]).value) else None,
                     body[r..end], seed, minutes))
  }

  function Read1(body: Bytes, family: nat): Result<Ticket, Error> {
    if family != FAMILY_V4 && family != FAMILY_V6 then Err(UnknownFamily)
    else
      var end := 1 + (if family == FAMILY_V4 then 4 else 16) + 2;
      if |body| != end + SEED_BYTES + 4 then Err(WrongLength)
      else
        var (seed, minutes) := Tail(body, end);
        var e := ReadEndpoint(body[1..end]);
        if e.Err? then Err(PortOutOfRange) else Ok(Ticket(Some(e.value), None, [], seed, minutes))
  }

  method DecodeV2(body: Bytes, flags: nat) returns (t: Result<Ticket, Error>)
    requires |body| >= 1
    ensures t == Read2(body, flags)
  {
    hide ReadEndpoint, Unpack;
    if !HasDirect(flags) && !HasRelay(flags) {
      return Err(NowhereToConnect);
    }
    var expected := 1 + SEED_BYTES + 4;
    if HasDirect(flags) {
      expected := expected + (if flags / 2 % 2 == 1 then 16 else 4) + 2;
    }
    if HasRelay(flags) {
      expected := expected + (if flags / 8 % 2 == 1 then 16 else 4) + 2 + NODE_BYTES;
    }
    if |body| != expected {
      return Err(WrongLength);
    }
    var reader := new Reader(body);
    var direct, relay, node: Bytes := None, None, [];
    if HasDirect(flags) {
      var e := reader.TakeEndpoint(if flags / 2 % 2 == 1 then 16 else 4);
      if e.Err? {
        return Err(PortOutOfRange);
      }
      direct := Some(e.value);
    }
    if HasRelay(flags) {
      var e := reader.TakeEndpoint(if flags / 8 % 2 == 1 then 16 else 4);
      if e.Err? {
        return Err(PortOutOfRange);
      }
      relay := Some(e.value);
      var n := reader.Take(NODE_BYTES);
      node := n.value;
    }
    assert node == body[1 + DirectSize(flags) + RelaySize(flags)..reader.at];
    var seed := reader.Take(SEED_BYTES);
    var minutes := reader.Take(4);
    assert minutes.value == body[|body| - 4..];
    return Ok(Ticket(direct, relay, node, seed.value, Unpack(minutes.value)));
  }

  method DecodeV1(body: Bytes, family: nat) returns (t: Result<Ticket, Error>)
    requires |body| >= 1
    ensures t == Read1(body, family)
  {
    hide ReadEndpoint, Unpack;
    if family != FAMILY_V4 && family != FAMILY_V6 {
      return Err(UnknownFamily);
    }
    var size := if family == FAMILY_V4 then 4 else 16;
    if |body| != 1 + size + 2 + SEED_BYTES + 4 {
      return Err(WrongLength);
    }
    var reader := new Reader(body);
    var e := reader.TakeEndpoint(size);
    if e.Err? {
      return Err(PortOutOfRange);
    }
    var seed := reader.Take(SEED_BYTES);
    var minutes := reader.Take(4);
    assert minutes.value == body[|body| - 4..];
    return Ok(Ticket(Some(e.value), None, [], seed.value, Unpack(minutes.value)));
  }

  /** What Python's `str.split` takes for white space. */
  predicate IsSpace(c: char) {
    var u := c as int;
    || 9 <= u <= 13 || 28 <= u <= 32 || u == 0x85 || u == 0xA0 || u == 0x1680 || 0x2000 <= u <= 0x200A
    || u == 0x2028 || u == 0x2029 || u == 0x202F || u == 0x205F || u == 0x3000
  }

  /** What Python's `str.upper` makes of one character, where the outcome is plain letters:
      that includes the dotless i, the long s, the sharp s and the ligatures. Every other
      character stands for itself: what `upper` makes of it holds one outside the alphabet too. */
  function Upper(c: char): (u: string)
    ensures u != []
  {
    if 'a' <= c <= 'z' then ['A' + (c - 'a')]
    else match c as int
      case 0xDF => "SS"
      case 0x131 => "I"
      case 0x17F => "S"
      case 0xFB00 => "FF"
      case 0xFB01 => "FI"
      case 0xFB02 => "FL"
      case 0xFB03 => "FFI"
      case 0xFB04 => "FFL"
      case 0xFB05 => "ST"
      case 0xFB06 => "ST"
      case _ => [c]
  }

  function Clean(text: string): string {
    if text == [] then []
    else if IsSpace(text[0]) || text[0] == '-' then Clean(text[1..])
    else Upper(text[0]) + Clean(text[1..])
  }

  function ReadBody(body: Bytes): Result<Ticket, Error>
    requires |body| >= 1
  {
    if body[0] / 16 == LEGACY_VERSION then Read1(body, body[0] % 16)
    else if body[0] / 16 != VERSION then Err(UnknownVersion)
    else Read2(body, body[0] % 16)
  }

  function ReadRaw(raw: Bytes, check: Checksum): Result<Ticket, Error> {
    if |raw| < 1 + 4 + 2 + SEED_BYTES + 4 + CHECK_BYTES then Err(Truncated)
    else
      var body := raw[..|raw| - CHECK_BYTES];
      if raw != Sealed(body, check) then Err(Damaged) else ReadBody(body)
  }

  function Read(text: string, check: Checksum): Result<Ticket, Error> {
    var cleaned := Clean(text);
    if cleaned == [] then Err(Empty)
    else if |cleaned| > MAX_TEXT then Err(TooLong)
    else
      var raw := Decode(cleaned);
      if raw.None? then Err(NotATicket) else ReadRaw(raw.value, check)
  }

  method DecodeTicket(text: string, check: Checksum) returns (t: Result<Ticket, Error>)
    ensures t == Read(text, check)
  {
    hide Read1, Read2, Decode;
    var cleaned := Clean(text);
    if cleaned == [] {
      return Err(Empty);
    }
    if |cleaned| > MAX_TEXT {
      return Err(TooLong);
    }
    var raw := Decode(cleaned);
    if raw.None? {
      return Err(NotATicket);
    }
    if |raw.value| < 1 + 4 + 2 + SEED_BYTES + 4 + CHECK_BYTES {
      return Err(Truncated);
    }
    var n := |raw.value| - CHECK_BYTES;
    var body, sum := raw.value[..n], raw.value[n..];
    if sum != [check(body).0, check(body).1] {
      return Err(Damaged);
    }
    assert raw.value == body + sum;
    var version, low := body[0] / 16, body[0] % 16;
    if version == LEGACY_VERSION {
      t := DecodeV1(body, low);
    } else if version != VERSION {
      t := Err(UnknownVersion);
    } else {
      t := DecodeV2(body, low);
    }
  }

  // ------------------------------------------------------------------ round trips

  lemma FlagsSay(t: Ticket)
    requires Printable(t)
    ensures var f := Flags(t.direct, t.relay);
            && (HasDirect(f) <==> t.direct.Some?) && (HasRelay(f) <==> t.relay.Some?)
            && DirectSize(f) == (if t.direct.Some? then |PackEndpoint(t.direct.value)| else 0)
            && RelaySize(f) == (if t.relay.Some? then |PackEndpoint(t.relay.value)| else 0)
            && RouteSize(f) == |Routes(t)|
  {
  }

  lemma EndpointRoundTrip(e: Endpoint)
    requires PortOk(e.port)
    ensures ReadEndpoint(PackEndpoint(e)) == Ok(e)
  {
    UnpackPack2(e.port);
  }

  function Packed(e: Option<Endpoint>): Bytes
    requires e.Some? ==> PortOk(e.value.port)
  {
    if e.Some? then PackEndpoint(e.value) else []
  }

  lemma BodyLayout(t: Ticket)
    requires Printable(t)
    ensures var body := Body(t);
            var d := 1 + |Packed(t.direct)|;
            var r := d + |Packed(t.relay)|;
            var end := r + |t.node|;
            && end == 1 + |Routes(t)| && |body| == end + SEED_BYTES + 4
            && body[0] == VERSION * 16 + Flags(t.direct, t.relay)
            && body[1..d] == Packed(t.direct) && body[d..r] == Packed(t.relay) && body[r..end] == t.node
            && body[end..end + SEED_BYTES] == t.seed && body[end + SEED_BYTES..] == Pack4(t.minutes)
  {
    hide PackEndpoint, Pack4, Flags;
    var head: Bytes := [VERSION * 16 + Flags(t.direct, t.relay)];
    assert Routes(t) == Packed(t.direct) + Packed(t.relay) + t.node;
    assert Body(t) == head + Packed(t.direct) + Packed(t.relay) + t.node + t.seed + Pack4(t.minutes);
    Slices(head, Packed(t.direct), Packed(t.relay), t.node, t.seed, Pack4(t.minutes));
  }

  lemma BodyRoundTrip(t: Ticket)
    requires Printable(t)
    ensures ReadBody(Body(t)) == Ok(t)
  {
    hide Body, Routes, Flags, ReadEndpoint, PackEndpoint, Unpack, Pack4;
    hide HasDirect, HasRelay, DirectSize, RelaySize, RouteSize;
    FlagsSay(t);
    BodyLayout(t);
    if t.direct.Some? {
      EndpointRoundTrip(t.direct.value);
    }
    if t.relay.Some? {
      EndpointRoundTrip(t.relay.value);
    }
    UnpackPack4(t.minutes);
  }

  lemma Slices(a: Bytes, b: Bytes, c: Bytes, d: Bytes, e: Bytes, f: Bytes)
    ensures var all := a + b + c + d + e + f;
            var (i, j) := (|a| + |b|, |a| + |b| + |c|);
            && all[|a|..i] == b && all[i..j] == c && all[j..j + |d|] == d
            && all[j + |d|..j + |d| + |e|] == e && all[j + |d| + |e|..] == f
  {
  }

  /** How a text can come back from paper or a voice: the case of any letter changed, white
      space and dashes put in anywhere. */
  predicate Retyped(text: string, typed: string) {
    if typed == [] then text == []
    else
      || ((IsSpace(typed[0]) || typed[0] == '-') && Retyped(text, typed[1..]))
      || (Upper(typed[0]) <= text && Retyped(text[|Upper(typed[0])|..], typed[1..]))
  }

  lemma SpaceIsNoLetter(c: char, text: string)
    requires InAlphabet(text) && Upper(c) <= text
    ensures !IsSpace(c) && c != '-'
  {
    assert Digit(text[0]).Some?;
  }

  lemma {:induction false} CleanRetyped(text: string, typed: string)
    requires InAlphabet(text) && Retyped(text, typed)
    ensures Clean(typed) == text
  {
    if typed != [] {
      if (IsSpace(typed[0]) || typed[0] == '-') && Retyped(text, typed[1..]) {
        CleanRetyped(text, typed[1..]);
      } else {
        var u := Upper(typed[0]);
        CleanRetyped(text[|u|..], typed[1..]);
        assert text == u + text[|u|..];
        SpaceIsNoLetter(typed[0], text);
      }
    }
  }

  lemma {:induction false} RetypedAsIs(text: string)
    requires InAlphabet(text)
    ensures Retyped(text, text)
  {
    if text != [] {
      assert Digit(text[0]).Some? && Upper(text[0]) == text[..1];
      RetypedAsIs(text[1..]);
    }
  }

  lemma PrintedSize(t: Ticket)
    requires Printable(t)
    ensures 19 <= |Body(t)| <= 69
  {
    hide Flags, PackEndpoint, Pack4;
  }

  /** Every ticket that can be written fits the bound a reader sets, and is read back as the
      same ticket, whatever its flags, however it was retyped. */
  lemma TicketRoundTrip(t: Ticket, check: Checksum, typed: string)
    requires Printable(t) && Retyped(Print(t, check), typed)
    ensures 34 <= |Print(t, check)| <= 114 < MAX_TEXT
    ensures Read(typed, check) == Ok(t)
  {
    hide Body, ReadBody, Encode, Read, Retyped;
    PrintedSize(t);
    RoundTrip(Sealed(Body(t), check));
    TextIsRead(Body(t), check, typed);
    BodyRoundTrip(t);
  }

  /** A body of any version, sealed, written as text and retyped, is read as that body. */
  lemma TextIsRead(body: Bytes, check: Checksum, typed: string)
    requires 19 <= |body| <= 69 && Retyped(Encode(Sealed(body, check)), typed)
    ensures Read(typed, check) == ReadBody(body)
  {
    hide ReadBody, Encode, Decode, Retyped, Clean;
    var raw := Sealed(body, check);
    RoundTrip(raw);
    CleanRetyped(Encode(raw), typed);
    assert raw[..|raw| - CHECK_BYTES] == body;
  }

  // ------------------------------------------------------------------ the older layout

  /** What the older version wrote: the family of its one address, the endpoint, the seed and
      the minute. */
  function OldBody(direct: Endpoint, seed: Bytes, minutes: nat): Bytes
    requires PortOk(direct.port) && |seed| == SEED_BYTES && minutes < 0x1_0000_0000
  {
    [LEGACY_VERSION * 16 + if IsV6(direct) then FAMILY_V6 else FAMILY_V4] + PackEndpoint(direct) + seed + Pack4(minutes)
  }

  predicate OldTicket(t: Ticket) {
    Printable(t) && t.direct.Some? && t.relay.None?
  }

  lemma PackUnpack2(b: Bytes)
    requires |b| == 2
    ensures Unpack(b) < 0x1_0000 && Pack2(Unpack(b)) == b
  {
    UnpackFits(b);
    UnpackTwo(b);
  }

  lemma UnpackFour(b: Bytes)
    requires |b| == 4
    ensures Unpack(b) == Unpack(b[..2]) * 0x1_0000 + Unpack(b[2..])
  {
    UnpackTwo(b[2..]);
    assert b[..3][..2] == b[..2];
    assert Unpack(b[..3]) == Unpack(b[..2]) * 0x100 + b[2];
    assert Unpack(b) == Unpack(b[..3]) * 0x100 + b[3];
  }

  lemma PackUnpack4(b: Bytes)
    requires |b| == 4
    ensures Unpack(b) < 0x1_0000_0000 && Pack4(Unpack(b)) == b
  {
    UnpackFour(b);
    hide Unpack, Pack2;
    PackUnpack2(b[..2]);
    PackUnpack2(b[2..]);
    assert b == b[..2] + b[2..];
  }

  lemma OldBodyParts(direct: Endpoint, seed: Bytes, minutes: nat)
    requires PortOk(direct.port) && |seed| == SEED_BYTES && minutes < 0x1_0000_0000
    ensures var body, end := OldBody(direct, seed, minutes), 1 + |PackEndpoint(direct)|;
            && |body| == end + SEED_BYTES + 4
            && body[0] == LEGACY_VERSION * 16 + (if IsV6(direct) then FAMILY_V6 else FAMILY_V4)
            && body[1..end] == PackEndpoint(direct) && body[end..end + SEED_BYTES] == seed
            && body[end + SEED_BYTES..] == Pack4(minutes)
  {
    hide PackEndpoint, Pack4;
  }

  /** Of the bodies marked with the older version, exactly those it could have written are read,
      and as what was written. */
  lemma OldBodiesExactly(body: Bytes, t: Ticket)
    requires |body| >= 1 && body[0] / 16 == LEGACY_VERSION
    ensures ReadBody(body) == Ok(t) <==>
              OldTicket(t) && body == OldBody(t.direct.value, t.seed, t.minutes)
  {
    if OldTicket(t) {
      OldIsRead(t);
    }
    if ReadBody(body) == Ok(t) {
      ReadIsOld(body, t);
    }
  }

  lemma OldIsRead(t: Ticket)
    requires OldTicket(t)
    ensures ReadBody(OldBody(t.direct.value, t.seed, t.minutes)) == Ok(t)
  {
    hide PackEndpoint, ReadEndpoint, Pack4, Unpack, OldBody;
    OldBodyParts(t.direct.value, t.seed, t.minutes);
    EndpointRoundTrip(t.direct.value);
    UnpackPack4(t.minutes);
  }

  lemma ReadIsOld(body: Bytes, t: Ticket)
    requires |body| >= 1 && body[0] / 16 == LEGACY_VERSION && ReadBody(body) == Ok(t)
    ensures OldTicket(t) && body == OldBody(t.direct.value, t.seed, t.minutes)
  {
    hide Unpack, Pack4, Pack2;
    var end := |body| - SEED_BYTES - 4;
    var route := body[1..end];
    PackUnpack2(route[|route| - 2..]);
    PackUnpack4(body[end + SEED_BYTES..]);
    assert route == route[..|route| - 2] + route[|route| - 2..];
    assert body == [body[0]] + route + body[end..end + SEED_BYTES] + body[end + SEED_BYTES..];
  }

  /** A ticket of the older version still works, however it was retyped. */
  lemma OldTicketIsRead(t: Ticket, check: Checksum, typed: string)
    requires OldTicket(t) && Retyped(Encode(Sealed(OldBody(t.direct.value, t.seed, t.minutes), check)), typed)
    ensures Read(typed, check) == Ok(t)
  {
    hide Read, ReadBody, Encode, Sealed, Retyped, PackEndpoint, Pack4;
    OldIsRead(t);
    TextIsRead(OldBody(t.direct.value, t.seed, t.minutes), check, typed);
  }

  /** 34 characters for the inviter's own IPv4 endpoint, 76 with an IPv4 relay beside it. */
  lemma TicketLengths(t: Ticket, check: Checksum)
    requires Printable(t) && t.direct.Some? && !IsV6(t.direct.value)
    ensures t.relay.None? ==> |Print(t, check)| == 34
    ensures t.relay.Some? && !IsV6(t.relay.value) ==> |Print(t, check)| == 76
  {
    hide PackEndpoint, Pack4, Flags, Encode;
    RoundTrip(Sealed(Body(t), check));
  }

  /** The whole way: what a caller asked for is what a reader gets, the expiry rounded down to
      the minute. */
  lemma AskedIsRead(direct: Option<Asked>, seed: Bytes, expiresAt: real, relay: Option<Asked>, node: Bytes,
                    check: Checksum)
    ensures var meant := Meant(direct, seed, expiresAt, relay, node);
            meant.Ok? ==>
              && Printable(meant.value) && Read(Print(meant.value, check), check) == meant
              && (direct.Some? ==>
                  meant.value.direct == Some(Endpoint(direct.value.address.value, direct.value.port.value)))
              && (relay.Some? ==> meant.value.node == node)
              && (relay.Some? ==>
                  meant.value.relay == Some(Endpoint(relay.value.address.value, relay.value.port.value)))
              && (direct.None? ==> meant.value.direct.None?) && (relay.None? ==> meant.value.relay.None?)
              && meant.value.seed == seed
              && (expiresAt >= 0.0 ==>
                  60.0 * meant.value.minutes as real <= expiresAt < 60.0 * (meant.value.minutes + 1) as real)
  {
    hide Print, Read;
    var meant := Meant(direct, seed, expiresAt, relay, node);
    if meant.Ok? {
      PrintedLetters(meant.value, check);
      RetypedAsIs(Print(meant.value, check));
      TicketRoundTrip(meant.value, check, Print(meant.value, check));
    }
  }

  /** Arguments are refused exactly for a bad seed, an endpoint that is none, a relay without
      a node id, nowhere to connect, or an expiry past the last minute the field holds. */
  lemma RefusedExactly(direct: Option<Asked>, seed: Bytes, expiresAt: real, relay: Option<Asked>, node: Bytes)
    ensures Meant(direct, seed, expiresAt, relay, node).Ok? <==>
              && |seed| == SEED_BYTES && (direct.Some? || relay.Some?)
              && (direct.Some? ==> Usable(direct.value))
              && (relay.Some? ==> Usable(relay.value) && |node| == NODE_BYTES)
              && expiresAt < 60.0 * 0x1_0000_0000 as real
  {
  }

  predicate Usable(asked: Asked) {
    asked.address != None && asked.port.Some? && asked.port.value > 0 && asked.port.value < 0x1_0000
  }

  /** And with the first of those reasons, in this order: the seed, the direct endpoint, the node
      id, the relay's endpoint, nowhere to connect, the expiry. */
  lemma FirstReasonCounts(direct: Option<Asked>, seed: Bytes, expiresAt: real, relay: Option<Asked>, node: Bytes)
    ensures var r := Meant(direct, seed, expiresAt, relay, node);
            && (r == Err(WrongSeed) <==> |seed| != SEED_BYTES)
            && (|seed| == SEED_BYTES && direct.Some? && !Usable(direct.value) ==>
                  r == Err(if direct.value.address.None? then NotNumeric else PortOutOfRange))
            && (|seed| == SEED_BYTES && (direct.Some? ==> Usable(direct.value)) ==>
                  && (r == Err(NeedsNode) <==> relay.Some? && |node| != NODE_BYTES)
                  && (relay.Some? && |node| == NODE_BYTES && !Usable(relay.value) ==>
                        r == Err(if relay.value.address.None? then NotNumeric else PortOutOfRange))
                  && (r == Err(NowhereToConnect) <==> direct.None? && relay.None?))
            && (r == Err(ExpiryTooFar) ==> expiresAt >= 60.0 * 0x1_0000_0000 as real)
  {
  }

  /** Every way of refusing a text, and when it is the reason: nothing in it, too much, letters
      that are not of the alphabet, too short for any ticket, a checksum that does not match, a
      version nobody knows. */
  lemma ReadRefuses(text: string, check: Checksum)
    ensures var (cleaned, r) := (Clean(text), Read(text, check));
            && (r == Err(Empty) <==> cleaned == [])
            && (r == Err(TooLong) <==> |cleaned| > MAX_TEXT)
            && (r == Err(NotATicket) <==> 0 < |cleaned| <= MAX_TEXT && Decode(cleaned).None?)
            && (0 < |cleaned| <= MAX_TEXT && Decode(cleaned).Some? ==>
                  var raw := Decode(cleaned).value;
                  && (r == Err(Truncated) <==> |raw| < 21)
                  && (|raw| >= 21 ==>
                        var body := raw[..|raw| - 2];
                        && (r == Err(Damaged) <==> (raw[|raw| - 2], raw[|raw| - 1]) != check(body))
                        && (r != Err(Damaged) ==>
                              && (r == Err(UnknownVersion) <==> body[0] / 16 != 1 && body[0] / 16 != 2)
                              && r == ReadBody(body))))
  {
    hide Clean, Decode, ReadEndpoint, Unpack;
    var cleaned := Clean(text);
    if 0 < |cleaned| <= MAX_TEXT && Decode(cleaned).Some? && |Decode(cleaned).value| >= 21 {
      var raw := Decode(cleaned).value;
      var body := raw[..|raw| - 2];
      SealedEnd(raw, body, check);
    }
  }

  lemma SealedEnd(raw: Bytes, body: Bytes, check: Checksum)
    requires |raw| >= 2 && body == raw[..|raw| - 2]
    ensures raw == Sealed(body, check) <==> (raw[|raw| - 2], raw[|raw| - 1]) == check(body)
  {
    if (raw[|raw| - 2], raw[|raw| - 1]) == check(body) {
      assert raw == body + [raw[|raw| - 2], raw[|raw| - 1]];
    }
    if raw == Sealed(body, check) {
      assert Sealed(body, check)[|body|] == check(body).0 && Sealed(body, check)[|body| + 1] == check(body).1;
    }
  }

  lemma PrintedLetters(t: Ticket, check: Checksum)
    requires Printable(t)
    ensures InAlphabet(Print(t, check))
  {
    RoundTrip(Sealed(Body(t), check));
  }

  // ------------------------------------------------------------------ cleaning

  /** White space as the Unicode standard lists it, and the four separators Python counts too. */
  const WHITE_SPACE: seq<int> :=
    [9, 10, 11, 12, 13, 28, 29, 30, 31, 32, 133, 160, 5760, 8192, 8193, 8194, 8195, 8196, 8197, 8198, 8199, 8200, 8201,
     8202, 8232, 8233, 8239, 8287, 12288]

  lemma SpaceExactly(c: char)
    ensures IsSpace(c) <==> c as int in WHITE_SPACE
  {
  }

  lemma {:induction false} CleanConcat(a: string, b: string)
    ensures Clean(a + b) == Clean(a) + Clean(b)
  {
    if a == [] {
      assert a + b == b;
    } else {
      assert (a + b)[1..] == a[1..] + b;
      CleanConcat(a[1..], b);
    }
  }

  /** A dash or white space anywhere in a text changes nothing. */
  lemma SpacesMeanNothing(a: string, c: char, b: string)
    requires c == '-' || c as int in WHITE_SPACE
    ensures Clean(a + [c] + b) == Clean(a + b)
  {
    SpaceExactly(c);
    CleanConcat(a, b);
    CleanConcat(a + [c], b);
    CleanConcat(a, [c]);
    assert [c][1..] == [];
  }

  predicate SameButCase(a: char, b: char) {
    a == b || ('A' <= a <= 'Z' && b as int == a as int + 32) || ('A' <= b <= 'Z' && a as int == b as int + 32)
  }

  /** Nor does the case of its letters; and what is already clean stays. */
  lemma {:induction false} CaseMeansNothing(a: string, b: string)
    requires |a| == |b| && forall i :: 0 <= i < |a| ==> SameButCase(a[i], b[i])
    ensures Clean(a) == Clean(b)
    ensures InAlphabet(a) ==> Clean(a) == a
  {
    hide Upper, IsSpace, Digit, SameButCase;
    if a != [] {
      assert forall i :: 0 <= i < |a| - 1 ==> a[1..][i] == a[i + 1] && b[1..][i] == b[i + 1];
      CaseMeansNothing(a[1..], b[1..]);
      OneLetter(a[0], b[0]);
      if InAlphabet(a) {
        LetterStays(a[0]);
        assert a == [a[0]] + a[1..];
      }
    }
  }

  lemma LetterStays(c: char)
    requires Digit(c).Some?
    ensures Upper(c) == [c] && !IsSpace(c) && c != '-'
  {
  }

  lemma OneLetter(a: char, b: char)
    requires SameButCase(a, b)
    ensures Upper(a) == Upper(b) && (IsSpace(a) || a == '-' <==> IsSpace(b) || b == '-')
  {
  }

  /** Whatever a reader accepts, of either version and with any unused bits set, can be
      written again and means the same. */
  lemma AcceptedCanBeReprinted(text: string, check: Checksum)
    requires Read(text, check).Ok?
    ensures var t := Read(text, check).value;
            Printable(t) && Read(Print(t, check), check) == Ok(t)
    ensures var t := Read(text, check).value;
            && (t.direct.Some? ==> 0 < t.direct.value.port < 0x1_0000)
            && (t.relay.Some? ==> 0 < t.relay.value.port < 0x1_0000)
  {
    hide Print, Decode, Clean, ReadEndpoint, Unpack;
    var t := Read(text, check).value;
    AcceptedIsPrintable(Decode(Clean(text)).value, check);
    PrintedLetters(t, check);
    RetypedAsIs(Print(t, check));
    TicketRoundTrip(t, check, Print(t, check));
  }

  lemma AcceptedIsPrintable(raw: Bytes, check: Checksum)
    requires ReadRaw(raw, check).Ok?
    ensures Printable(ReadRaw(raw, check).value)
  {
    hide ReadEndpoint, Unpack;
    var body := raw[..|raw| - CHECK_BYTES];
    var t := ReadRaw(raw, check).value;
    UnpackFits(body[|body| - 4..]);
    ReadPortsOk(body);
  }

  lemma ReadPortsOk(body: Bytes)
    ensures forall i, j :: 0 <= i <= j <= |body| && (j - i == 6 || j - i == 18) && ReadEndpoint(body[i..j]).Ok? ==>
              PortOk(ReadEndpoint(body[i..j]).value.port)
  {
  }
}
