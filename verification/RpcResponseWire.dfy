/** The RPC response format: the server's send_response (cpp/src/rpc_server.cpp) and the client's
    parse in on_message (cpp/src/rpc_client.cpp). */
module RpcResponseWire {
  import opened Wrappers
  import opened Bytes
  import opened Buffers

  const RPC_MAGIC: nat := 0x47525043
  const HEADER: nat := 32

  datatype Response = Response(status: byte, error: seq<byte>, payload: Option<seq<byte>>)
  {
    function Body(): seq<byte> {
      if payload.None? then [] else payload.value
    }
  }

  /** What the client can at best know: an empty payload and no payload look the same. */
  function Normal(r: Response): Response {
    r.(payload := if r.Body() == [] then None else r.payload)
  }

  function Header(id: nat, r: Response, reserved: nat): (h: seq<byte>)
    ensures |h| == HEADER
  {
    Le(RPC_MAGIC, 4) + Le(1, 4) + Le(id, 8) + Le(r.status, 4) + Le(|r.Body()|, 4) + Le(0, 4) + Le(reserved, 4)
  }

  function ResponseBytes(id: nat, r: Response, reserved: nat): (s: seq<byte>)
    ensures |s| == 36 + |r.error| + |r.Body()|
  {
    Header(id, r, reserved) + Le(|r.error|, 4) + r.error + r.Body()
  }

  function Cut(s: seq<byte>, capacity: nat): seq<byte> {
    s[..Min(|s|, capacity)]
  }

  /** Writing piece after piece into a buffer that drops what does not fit sends the start of
      the message. */
  method SendResponse(buffer: Buffer, id: nat, r: Response, reserved: nat)
    requires buffer.Valid() && buffer.size == 0
    modifies buffer`size, buffer.data
    ensures buffer.Valid()
    ensures buffer.Contents() == Cut(ResponseBytes(id, r, reserved), buffer.data.Length)
  {
    hide Header, Le, Cut;
    var capacity := buffer.data.Length;
    CutEmpty(capacity);
    var header, len := Header(id, r, reserved), Le(|r.error|, 4);
    var n := buffer.Write(header);
    CutAppend(capacity, [], header);
    assert [] + header == header;
    if r.error != [] {
      n := buffer.Write(len);
      CutAppend(capacity, header, len);
      n := buffer.Write(r.error);
      CutAppend(capacity, header + len, r.error);
    } else {
      n := buffer.Write(len);
      CutAppend(capacity, header, len);
      assert header + len + r.error == header + len;
    }
    assert buffer.Contents() == Cut(header + len + r.error, capacity);
    if r.payload.Some? {
      n := buffer.Write(r.payload.value);
      CutAppend(capacity, header + len + r.error, r.payload.value);
    } else {
      assert header + len + r.error + [] == header + len + r.error;
    }
  }

  lemma CutEmpty(capacity: nat)
    ensures Cut([], capacity) == []
  {
  }

  lemma CutAppend(capacity: nat, a: seq<byte>, b: seq<byte>)
    ensures Cut(a + b, capacity) == Cut(a, capacity) + b[..Min(|b|, capacity - |Cut(a, capacity)|)]
  {
  }

  datatype Parsed = Parsed(id: nat, response: Response)

  /** on_message up to the completion of the future. `room` is the size of the buffer the
      client's own pool yields for the payload, None when it yields none. */
  function Parse(c: seq<byte>, room: Option<nat>): Option<Parsed> {
    if |c| < HEADER then None
    else
      var len := if |c| > 36 then FromLe(c[32..36]) else 0;
      var hasError := len > 0 && |c| >= 36 + len;
      var error := if hasError then c[36..36 + len] else [];
      var offset := if hasError then 36 + len else if |c| > 36 then 36 else 32;
      var payload := if |c| > offset && room.Some? then Some(c[offset..offset + Min(room.value, |c| - offset)]) else None;
      Some(Parsed(FromLe(c[8..16]), Response(FromLe(c[16..20]) % 256, error, payload)))
  }

  method ParseResponse(c: seq<byte>, payloadBuffer: Option<Buffer>) returns (r: Option<Parsed>)
    requires payloadBuffer.Some? ==> payloadBuffer.value.Valid() && payloadBuffer.value.size == 0
    modifies if payloadBuffer.Some? then {payloadBuffer.value, payloadBuffer.value.data} else {}
    ensures r == Parse(c, if payloadBuffer.None? then None else Some(payloadBuffer.value.data.Length))
  {
    hide FromLe;
    if |c| < HEADER {
      return None;
    }
    var offset, error := HEADER, [];
    if |c| > offset + 4 {
      var len := FromLe(c[offset..offset + 4]);
      offset := offset + 4;
      if len > 0 && |c| >= offset + len {
        error := c[offset..offset + len];
        offset := offset + len;
      }
    }
    var payload: Option<seq<byte>> := None;
    if |c| > offset && payloadBuffer.Some? {
      var n := payloadBuffer.value.Write(c[offset..]);
      payload := Some(payloadBuffer.value.Contents());
      assert payload.value == c[offset..offset + n];
    }
    return Some(Parsed(FromLe(c[8..16]), Response(FromLe(c[16..20]) % 256, error, payload)));
  }

  // ---- When the client recovers what the server sent ----

  ghost predicate Recovers(id: nat, r: Response, reserved: nat, capacity: nat, room: Option<nat>) {
    Parse(Cut(ResponseBytes(id, r, reserved), capacity), room) == Some(Parsed(id, Normal(r)))
  }

  /** The other fields: magic number, version, payload size and flags. */
  lemma HeaderRest(c: seq<byte>, id: nat, r: Response, reserved: nat)
    requires Header(id, r, reserved) <= c
    ensures FromLe(c[0..4]) == 0x47525043 && FromLe(c[4..8]) == 1
    ensures FromLe(c[20..24]) == |r.Body()| % 0x1_0000_0000 && FromLe(c[24..28]) == 0
  {
    hide Le, FromLe;
    var magic, version, size, flags := Le(RPC_MAGIC, 4), Le(1, 4), Le(|r.Body()|, 4), Le(0, 4);
    var h := Header(id, r, reserved);
    assert h[0..4] == magic && h[4..8] == version && h[20..24] == size && h[24..28] == flags;
    assert c[0..4] == h[0..4] && c[4..8] == h[4..8] && c[20..24] == h[20..24] && c[24..28] == h[24..28];
    Le32(RPC_MAGIC);
    Le32(1);
    Le32(0);
    FromLeWraps(|r.Body()|, 4);
    Widths();
  }

  /** The header's fields survive, whatever follows. */
  lemma HeaderFields(c: seq<byte>, id: nat, r: Response, reserved: nat)
    requires id < U64 && Header(id, r, reserved) <= c
    ensures FromLe(c[8..16]) == id && FromLe(c[16..20]) == r.status
  {
    hide Le, FromLe;
    var h := Header(id, r, reserved);
    var version, rest := Le(RPC_MAGIC, 4) + Le(1, 4), Le(|r.Body()|, 4) + Le(0, 4) + Le(reserved, 4);
    AtPart(c, 0, version, Le(id, 8), Le(r.status, 4) + rest) by {
      assert version + Le(id, 8) + (Le(r.status, 4) + rest) == h;
    }
    AtPart(c, 16, Le(r.status, 4), rest, []) by {
      assert Le(r.status, 4) + rest + [] == Le(r.status, 4) + rest;
    }
    Le64(id);
    Le32(r.status);
  }

  /** The client's reading of a message with a nonempty tail after the length. */
  lemma ParseParts(header: seq<byte>, len: seq<byte>, tail: seq<byte>, room: Option<nat>)
    requires |header| == HEADER && |len| == 4 && tail != []
    ensures var n := FromLe(len);
      var split := if n <= |tail| then n else 0;
      var rest := tail[split..];
      Parse(header + len + tail, room) == Some(Parsed(FromLe(header[8..16]), Response(
        FromLe(header[16..20]) % 256,
        tail[..split],
        if rest != [] && room.Some? then Some(rest[..Min(room.value, |rest|)]) else None)))
  {
    hide FromLe;
    var c, n := header + len + tail, FromLe(len);
    assert c[8..16] == header[8..16] && c[16..20] == header[16..20] && c[32..36] == len;
    var split := if n <= |tail| then n else 0;
    var m := if room.Some? then Min(room.value, |tail| - split) else 0;
    assert c[36..36 + split] == tail[..split];
    assert c[36 + split..36 + split + m] == tail[split..][..m];
  }

  lemma ParseEmpty(header: seq<byte>, len: seq<byte>, room: Option<nat>)
    requires |header| == HEADER && |len| == 4
    ensures Parse(header + len, room) == Some(Parsed(FromLe(header[8..16]), Response(
      FromLe(header[16..20]) % 256, [], if room.Some? then Some(len[..Min(room.value, 4)]) else None)))
  {
    hide FromLe;
    var c := header + len;
    assert c[8..16] == header[8..16] && c[16..20] == header[16..20];
    assert forall j: nat | j <= 4 :: c[32..32 + j] == len[..j];
  }

  lemma TailRecovers(error: seq<byte>, body: seq<byte>, space: nat, room: Option<nat>)
    requires error + body != [] && space > 0
    ensures var tail := (error + body)[..Min(|error| + |body|, space)];
      var n := |error| % U32;
      var split := if n <= |tail| then n else 0;
      var rest := tail[split..];
      && (tail[..split] == error
          && (if rest != [] && room.Some? then Some(rest[..Min(room.value, |rest|)]) else None)
             == (if body == [] then None else Some(body))
        <==>
          && |error| < U32
          && |error| + |body| <= space
          && (body != [] ==> room.Some? && room.value >= |body|))
  {
    var tail := (error + body)[..Min(|error| + |body|, space)];
    var n := |error| % U32;
    var split := if n <= |tail| then n else 0;
    var rest := tail[split..];
    if |error| <= |tail| {
      assert tail[..|error|] == error;
    }
    if tail[..split] == error {
      assert rest == body[..|tail| - |error|];
      if rest != [] && room.Some? && rest[..Min(room.value, |rest|)] == body {
        assert |body| <= |rest|;
      }
    }
  }

  /** With room for more than the fixed part of the message, the client recovers a response exactly
      when it is not empty, its error's length fits four bytes, all of it fits the server's
      buffer and its payload the client's. An empty one survives only if the client is out of
      buffers: its four length bytes read as a payload. */
  lemma RecoversExactly(id: nat, r: Response, reserved: nat, capacity: nat, room: Option<nat>)
    requires id < U64 && capacity > 36
    ensures Recovers(id, r, reserved, capacity, room) <==>
      if r.error == [] && r.Body() == [] then room.None?
      else
        && |r.error| < U32
        && 36 + |r.error| + |r.Body()| <= capacity
        && (r.Body() != [] ==> room.Some? && room.value >= |r.Body()|)
  {
    hide Le, FromLe, Header, Parse;
    var header, len, k := Header(id, r, reserved), Le(|r.error|, 4), Min(|r.error| + |r.Body()|, capacity - 36);
    var tail := (r.error + r.Body())[..k];
    assert Cut(ResponseBytes(id, r, reserved), capacity) == header + len + tail;
    HeaderFields(header, id, r, reserved);
    FromLeWraps(|r.error|, 4);
    Widths();
    if tail == [] {
      assert header + len + tail == header + len;
      ParseEmpty(header, len, room);
    } else {
      ParseParts(header, len, tail, room);
      TailRecovers(r.error, r.Body(), capacity - 36, room);
    }
  }

  /** In a buffer of at most 36 bytes the error never arrives, and the client takes the zero
      length bytes that do for the payload. */
  lemma RecoversInTinyBuffer(id: nat, r: Response, reserved: nat, capacity: nat, room: Option<nat>)
    requires id < U64 && capacity <= 36
    ensures Recovers(id, r, reserved, capacity, room) <==>
      && capacity >= HEADER
      && r.error == []
      && r.Body() == (if room.None? then [] else seq(Min(room.value, capacity - HEADER), i => 0))
      && (r.Body() == [] ==> room.None? || capacity == HEADER)
  {
    hide Header;
    var bytes := ResponseBytes(id, r, reserved);
    var c := Cut(bytes, capacity);
    var header, len := Header(id, r, reserved), Le(|r.error|, 4);
    if capacity >= HEADER {
      assert c == header + len[..capacity - HEADER];
      HeaderFields(c, id, r, reserved);
      if r.error == [] {
        assert len == [0, 0, 0, 0];
        if room.Some? {
          assert c[32..32 + Min(room.value, capacity - HEADER)] == seq(Min(room.value, capacity - HEADER), i => 0);
        }
      }
    }
  }

  /** The failing case at its smallest: OK with nothing else arrives as OK with four zero bytes. */
  lemma EmptyResponseGainsPayload(id: nat, reserved: nat)
    requires id < U64
    ensures Parse(Cut(ResponseBytes(id, Response(0, [], None), reserved), 4096), Some(4096))
         == Some(Parsed(id, Response(0, [], Some([0, 0, 0, 0]))))
  {
    hide Header;
    var r := Response(0, [], None);
    var c := Cut(ResponseBytes(id, r, reserved), 4096);
    assert c == Header(id, r, reserved) + [0, 0, 0, 0];
    HeaderFields(c, id, r, reserved);
    assert c[32..36] == [0, 0, 0, 0];
  }

  /** A request id answers one call only: nothing but the header decides it. */
  lemma IdSurvivesCutting(id: nat, r: Response, reserved: nat, capacity: nat, room: Option<nat>)
    requires id < U64
    ensures var p := Parse(Cut(ResponseBytes(id, r, reserved), capacity), room);
      && (p.Some? <==> capacity >= HEADER)
      && (p.Some? ==> p.value.id == id && p.value.response.status == r.status)
  {
    hide Le, FromLe, Header;
    var c := Cut(ResponseBytes(id, r, reserved), capacity);
    if capacity >= HEADER {
      assert Header(id, r, reserved) <= c;
      HeaderFields(c, id, r, reserved);
    }
  }
}
