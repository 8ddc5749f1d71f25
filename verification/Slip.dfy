/**
  The SLIP codec of the serial bridge (external_files/bridge.py), which follows the
  protocol of RFC 1055: END is sent before and after a packet, END and ESC inside it
  are escaped.
 */
module Slip {

  type Octet = x: int | 0 <= x < 0x100
  type Bytes = seq<Octet>

  const END: Octet := 0xc0
  const ESC: Octet := 0xdb
  const ESC_END: Octet := 0xdc
  const ESC_ESC: Octet := 0xdd

  // ---------------------------------------------------------------------------
  // Encoding
  // ---------------------------------------------------------------------------

  function EscapeOctet(c: Octet): Bytes {
    if c == END then [ESC, ESC_END] else if c == ESC then [ESC, ESC_ESC] else [c]
  }

  function Escape(p: Bytes): Bytes {
    if p == [] then [] else EscapeOctet(p[0]) + Escape(p[1..])
  }

  function Frame(p: Bytes): Bytes {
    [END] + Escape(p) + [END]
  }

  /** What goes over the line for a list of packets. */
  function Line(ps: seq<Bytes>): Bytes {
    if ps == [] then [] else Frame(ps[0]) + Line(ps[1..])
  }

  /** The octets of RFC 1055: 192 becomes 219 220, 219 becomes 219 221, and a frame ends in 192. */
  lemma Rfc1055Octets()
    ensures Frame([192]) == [192, 219, 220, 192] && Frame([219]) == [192, 219, 221, 192]
    ensures forall c: Octet :: c != 192 && c != 219 ==> Frame([c]) == [192, c, 192]
  {
    forall c: Octet ensures Escape([c]) == EscapeOctet(c) {
      assert [c][1..] == [] && EscapeOctet(c) + [] == EscapeOctet(c);
    }
  }

  /** Inside a frame there is no 192, and a 219 only in front of 220 or 221. */
  predicate Transparent(s: Bytes) {
    s != [] ==>
      && s[0] != 192
      && if s[0] == 219 then |s| > 1 && (s[1] == 220 || s[1] == 221) && Transparent(s[2..]) else Transparent(s[1..])
  }

  lemma {:induction false} EscapeIsTransparent(p: Bytes)
    ensures Transparent(Escape(p))
  {
    if p != [] {
      EscapeIsTransparent(p[1..]);
      var s, r := Escape(p), Escape(p[1..]);
      if p[0] == END || p[0] == ESC { assert s[2..] == r; } else { assert s[1..] == r; }
    }
  }

  // ---------------------------------------------------------------------------
  // Decoding
  // ---------------------------------------------------------------------------

  /** The fields of the decoder, without the stream that is still to be read. */
  datatype Decoder = Decoder(started: bool, escaped: bool, packet: Bytes)

  /** What reading some characters yields: packets and a new state, or an exception. */
  datatype Reading = Reading(ok: bool, d: Decoder, packets: seq<Bytes>)

  function ReadOctet(d: Decoder, c: Octet): Reading {
    if c == END then Reading(true, Decoder(true, d.escaped, []), if d.started then [d.packet] else [])
    else if c == ESC then Reading(true, d.(escaped := true), [])
    else if c == ESC_END then
      Reading(true, d.(escaped := false, packet := d.packet + [if d.escaped then END else c]), [])
    else if c == ESC_ESC then
      Reading(true, d.(escaped := false, packet := d.packet + [if d.escaped then ESC else c]), [])
    else if d.escaped then Reading(false, d, [])
    else Reading(true, Decoder(true, false, d.packet + [c]), [])
  }

  function Read(d: Decoder, s: Bytes): Reading
    decreases |s|
  {
    if s == [] then Reading(true, d, [])
    else
      var r := ReadOctet(d, s[0]);
      if !r.ok then r
      else
        var rest := Read(r.d, s[1..]);
        rest.(packets := r.packets + rest.packets)
  }

  /** A reading that follows on packets read before. */
  function After(list: seq<Bytes>, r: Reading): Reading {
    r.(packets := list + r.packets)
  }

  lemma ReadStep(d: Decoder, s: Bytes, list: seq<Bytes>)
    requires s != []
    ensures var r := ReadOctet(d, s[0]);
      After(list, Read(d, s)) == if r.ok then After(list + r.packets, Read(r.d, s[1..])) else After(list, r)
  {
    var r := ReadOctet(d, s[0]);
    if r.ok {
      var rest := Read(r.d, s[1..]).packets;
      assert list + (r.packets + rest) == (list + r.packets) + rest;
    }
  }

  function NonEmpty(ps: seq<Bytes>): seq<Bytes> {
    if ps == [] then [] else (if ps[0] != [] then [ps[0]] else []) + NonEmpty(ps[1..])
  }

  lemma {:induction false} ReadSplit(d: Decoder, a: Bytes, b: Bytes)
    ensures var r := Read(d, a);
      Read(d, a + b) == if !r.ok then r else var t := Read(r.d, b); t.(packets := r.packets + t.packets)
    decreases |a|
  {
    if a == [] {
      assert a + b == b;
    } else {
      assert (a + b)[1..] == a[1..] + b;
      var r := ReadOctet(d, a[0]);
      if r.ok { ReadSplit(r.d, a[1..], b); }
    }
  }

  /** Behind `s` an escape is open: the last byte of it that is not END is ESC. */
  predicate EscapeOpen(s: Bytes) {
    s != [] && (s[|s|-1] == ESC || (s[|s|-1] == END && EscapeOpen(s[..|s|-1])))
  }

  /** A plain byte comes where an escape is open. */
  predicate BadEscape(s: Bytes) {
    s != [] && (BadEscape(s[..|s|-1]) || (Plain(s[|s|-1]) && EscapeOpen(s[..|s|-1])))
  }

  /** The decoder raises its protocol error exactly for such a byte, END or not in between. */
  lemma {:induction false} RaisesIff(d: Decoder, s: Bytes)
    requires !d.escaped
    ensures Read(d, s).ok <==> !BadEscape(s)
    ensures Read(d, s).ok ==> Read(d, s).d.escaped == EscapeOpen(s)
    decreases |s|
  {
    if s != [] {
      var a, c := s[..|s|-1], s[|s|-1];
      RaisesIff(d, a);
      assert s == a + [c];
      ReadSplit(d, a, [c]);
      if Read(d, a).ok { ReadOne(Read(d, a).d, c); }
    }
  }

  lemma ReadOne(d: Decoder, c: Octet)
    ensures var r := Read(d, [c]); r.ok == ReadOctet(d, c).ok && r.d == ReadOctet(d, c).d
  {
    assert [c][1..] == [];
    assert Read(ReadOctet(d, c).d, []) == Reading(true, ReadOctet(d, c).d, []);
  }

  /** None of the four special bytes. */
  predicate Plain(c: Octet) {
    c != END && c != ESC && c != ESC_END && c != ESC_ESC
  }

  predicate HasPlain(p: Bytes) {
    p != [] && (Plain(p[0]) || HasPlain(p[1..]))
  }

  lemma ReadEscaped(d: Decoder, c: Octet)
    requires !d.escaped
    ensures Read(d, EscapeOctet(c)) ==
      Reading(true, Decoder(d.started || Plain(c), false, d.packet + [c]), [])
  {
    var s := EscapeOctet(c);
    if |s| == 2 {
      assert s[1..][1..] == [];
      assert Read(ReadOctet(d, s[0]).d, s[1..]) == Read(ReadOctet(ReadOctet(d, s[0]).d, s[1]).d, []);
    } else {
      assert s[1..] == [];
    }
  }

  lemma ReadAfterOctet(d: Decoder, c: Octet, s: Bytes)
    requires !d.escaped
    ensures Read(d, EscapeOctet(c) + s) ==
      Read(Decoder(d.started || Plain(c), false, d.packet + [c]), s)
  {
    ReadEscaped(d, c);
    ReadSplit(d, EscapeOctet(c), s);
    var r := Read(Decoder(d.started || Plain(c), false, d.packet + [c]), s);
    assert [] + r.packets == r.packets;
  }

  /** Escaped bytes never raise and come back as they were; only a plain byte marks the packet as started. */
  lemma {:induction false} ReadEscape(d: Decoder, p: Bytes)
    requires !d.escaped
    ensures Read(d, Escape(p)) == Reading(true, Decoder(d.started || HasPlain(p), false, d.packet + p), [])
    decreases |p|
  {
    if p == [] {
      assert d.packet + p == d.packet;
    } else {
      ReadAfterOctet(d, p[0], Escape(p[1..]));
      ReadEscape(Decoder(d.started || Plain(p[0]), false, d.packet + [p[0]]), p[1..]);
      assert (d.packet + [p[0]]) + p[1..] == d.packet + p;
    }
  }

  lemma ReadEnd(d: Decoder)
    ensures Read(d, [END]) == Reading(true, Decoder(true, d.escaped, []), if d.started then [d.packet] else [])
  {
    assert [END][1..] == [];
    var r := ReadOctet(d, END);
    assert Read(r.d, []).packets == [] && r.packets + [] == r.packets;
  }

  /** One frame in one piece: what was collected before, if anything, then the packet. */
  lemma ReadFrame(d: Decoder, p: Bytes)
    requires !d.escaped
    ensures Read(d, Frame(p)) == Reading(true, Decoder(true, false, []), (if d.started then [d.packet] else []) + [p])
  {
    var e := Decoder(true, false, []);
    ReadEnd(d);
    ReadSplit(d, [END], Escape(p));
    ReadEscape(e, p);
    assert [] + p == p;
    ReadSplit(d, [END] + Escape(p), [END]);
    ReadEnd(Decoder(true, false, p));
  }

  lemma {:induction false} NonEmptySplit(a: seq<Bytes>, b: seq<Bytes>)
    ensures NonEmpty(a + b) == NonEmpty(a) + NonEmpty(b)
  {
    if a == [] { assert a + b == b; } else {
      assert (a + b)[1..] == a[1..] + b;
      NonEmptySplit(a[1..], b);
    }
  }

  /** One decode of many frames: no exception, and the packets that are not empty, in order. */
  lemma {:induction false} ReadLine(d: Decoder, ps: seq<Bytes>)
    requires !d.escaped && (d.started ==> d.packet == [])
    ensures var r := Read(d, Line(ps)); r.ok && !r.d.escaped && NonEmpty(r.packets) == NonEmpty(ps)
    decreases |ps|
  {
    if ps != [] {
      var a := Read(d, Frame(ps[0])).packets;
      ReadFrame(d, ps[0]);
      ReadSplit(d, Frame(ps[0]), Line(ps[1..]));
      ReadLine(Decoder(true, false, []), ps[1..]);
      var b := Read(Decoder(true, false, []), Line(ps[1..])).packets;
      NonEmptySplit(a, b);
      assert ps == [ps[0]] + ps[1..];
      FrameYields(d, ps[0]);
    }
  }

  lemma FrameYields(d: Decoder, p: Bytes)
    requires d.started ==> d.packet == []
    ensures NonEmpty((if d.started then [d.packet] else []) + [p]) == if p != [] then [p] else []
  {
    assert [p][1..] == [] && NonEmpty([p][1..]) == [];
    if d.started {
      assert ([d.packet] + [p])[1..] == [p];
    } else {
      assert [] + [p] == [p];
    }
  }

  const FRESH: Decoder := Decoder(false, false, [])

  /** The round trip of one bulk decode. */
  lemma BulkRoundTrip(ps: seq<Bytes>)
    ensures Read(FRESH, Line(ps)).ok && NonEmpty(Read(FRESH, Line(ps)).packets) == NonEmpty(ps)
  {
    ReadLine(FRESH, ps);
  }

  // ---------------------------------------------------------------------------
  // The worker, which decodes at every END
  // ---------------------------------------------------------------------------

  /** What the receiving thread passes on: `pending` is the stream collected so far. Stops at an exception. */
  function Work(d: Decoder, pending: Bytes, s: Bytes): seq<Bytes>
    decreases |s|
  {
    if s == [] then []
    else if s[0] != END then Work(d, pending + [s[0]], s[1..])
    else
      var r := Read(d, pending + [END]);
      if !r.ok then [] else NonEmpty(r.packets) + Work(r.d.(started := false), [], s[1..])
  }

  function Delivered(ps: seq<Bytes>): seq<Bytes> {
    if ps == [] then [] else (if HasPlain(ps[0]) then [ps[0]] else []) + Delivered(ps[1..])
  }

  lemma {:induction false} EscapeHasNoEnd(p: Bytes)
    ensures END !in Escape(p)
  {
    if p != [] { EscapeHasNoEnd(p[1..]); }
  }

  /** Nothing happens until the next END. */
  lemma {:induction false} WorkCollects(d: Decoder, pending: Bytes, a: Bytes, s: Bytes)
    requires END !in a
    ensures Work(d, pending, a + s) == Work(d, pending + a, s)
    decreases |a|
  {
    if a == [] {
      assert a + s == s && pending + a == pending;
    } else {
      assert (a + s)[1..] == a[1..] + s;
      assert (a + s)[0] == a[0] && a[0] in a;
      WorkCollects(d, pending + [a[0]], a[1..], s);
      assert (pending + [a[0]]) + a[1..] == pending + a;
    }
  }

  /** A decode that reads up to the END of a frame. */
  lemma WorkOnce(p: Bytes, s: Bytes)
    ensures Work(FRESH, [], Escape(p) + [END] + s) == (if HasPlain(p) then [p] else []) + Work(FRESH, [], s)
  {
    var a := Escape(p);
    EscapeHasNoEnd(p);
    assert a + [END] + s == a + ([END] + s);
    WorkCollects(FRESH, [], a, [END] + s);
    assert [] + a == a && ([END] + s)[1..] == s;
    ReadSplit(FRESH, a, [END]);
    ReadEscape(FRESH, p);
    assert [] + p == p;
    ReadEnd(Decoder(HasPlain(p), false, p));
    var r := Read(FRESH, a + [END]);
    assert r.packets == if HasPlain(p) then [p] else [];
    assert [p][1..] == [] && NonEmpty([p][1..]) == [];
    assert HasPlain(p) ==> p != [];
  }

  /** The worker passes on exactly the packets that hold a plain byte. */
  lemma {:induction false} WorkerRoundTrip(ps: seq<Bytes>)
    ensures Work(FRESH, [], Line(ps)) == Delivered(ps)
  {
    if ps != [] {
      var p, rest := ps[0], Line(ps[1..]);
      assert Line(ps) == Escape([]) + [END] + (Escape(p) + [END] + rest);
      WorkOnce([], Escape(p) + [END] + rest);
      WorkOnce(p, rest);
      WorkerRoundTrip(ps[1..]);
    }
  }

  /** An IPv4 packet starts with version 4 and a header length, which is a plain byte. */
  predicate Ipv4(p: Bytes) {
    p != [] && p[0] / 16 == 4
  }

  /** Whatever IPv4 packets are sent, the worker passes on all of them, in order. */
  lemma {:induction false} Ipv4IsDelivered(ps: seq<Bytes>)
    requires forall i :: 0 <= i < |ps| ==> Ipv4(ps[i])
    ensures Work(FRESH, [], Line(ps)) == ps
  {
    WorkerRoundTrip(ps);
    AllDelivered(ps);
  }

  lemma {:induction false} AllDelivered(ps: seq<Bytes>)
    requires forall i :: 0 <= i < |ps| ==> Ipv4(ps[i])
    ensures Delivered(ps) == ps
  {
    if ps != [] {
      assert Ipv4(ps[0]) && HasPlain(ps[0]);
      forall i | 0 <= i < |ps[1..]| ensures Ipv4(ps[1..][i]) { assert Ipv4(ps[i+1]); }
      AllDelivered(ps[1..]);
    }
  }

  /** A packet of special bytes only is lost. */
  lemma SpecialIsLost()
    ensures Work(FRESH, [], Line([[END, ESC]])) == []
  {
    var p: Bytes := [END, ESC];
    WorkerRoundTrip([p]);
    assert [p][1..] == [] && p[1..] == [ESC] && p[1..][1..] == [];
    assert !HasPlain(p[1..]) && !HasPlain(p);
    assert Delivered([p][1..]) == [];
  }

  // ---------------------------------------------------------------------------
  // The class
  // ---------------------------------------------------------------------------

  class Codec {
    var started: bool
    var escaped: bool
    var stream: Bytes
    var packet: Bytes

    function State(): Decoder
      reads this
    {
      Decoder(started, escaped, packet)
    }

    constructor ()
      ensures State() == FRESH && stream == []
    {
      started, escaped, stream, packet := false, false, [], [];
    }

    method AppendData(chunk: Bytes)
      modifies this`stream
      ensures stream == old(stream) + chunk
    {
      stream := stream + chunk;
    }

    /** One character of `decode`; `ok` is false when it raises. */
    method DecodeOctet(c: Octet, list: seq<Bytes>) returns (ok: bool, list': seq<Bytes>)
      modifies this`started, this`escaped, this`packet
      ensures var r := ReadOctet(old(State()), c); ok == r.ok && State() == r.d && list' == list + r.packets
    {
      ok, list' := true, list;
      if c == END {
        if started {
          list' := list + [packet];
        } else {
          started := true;
        }
        packet := [];
      } else if c == ESC {
        escaped := true;
      } else if c == ESC_END {
        if escaped {
          packet := packet + [END];
          escaped := false;
        } else {
          packet := packet + [c];
        }
      } else if c == ESC_ESC {
        if escaped {
          packet := packet + [ESC];
          escaped := false;
        } else {
          packet := packet + [c];
        }
      } else if escaped {
        ok := false;
      } else {
        packet := packet + [c];
        started := true;
      }
    }

    /** `decode`. After an exception the stream is still there. */
    method Decode() returns (ok: bool, list: seq<Bytes>)
      modifies this
      ensures var r := Read(old(State()), old(stream));
        && ok == r.ok
        && (ok ==> list == r.packets && State() == r.d.(started := false) && stream == [])
        && (!ok ==> State() == r.d && stream == old(stream))
    {
      ok, list := true, [];
      var rest := stream;
      ghost var all := Read(State(), stream);
      assert [] + all.packets == all.packets;
      while rest != [] && ok
        invariant stream == old(stream)
        invariant if ok then all == After(list, Read(State(), rest)) else !all.ok && all.d == State()
        decreases |rest|
      {
        ReadStep(State(), rest, list);
        ok, list := DecodeOctet(rest[0], list);
        rest := rest[1..];
      }
      if ok {
        assert list + [] == list;
        stream := [];
        started := false;
      }
    }

    /** `encode` */
    method Encode(p: Bytes) returns (encoded: Bytes)
      ensures encoded == Frame(p)
    {
      encoded := [END];
      var rest := p;
      while rest != []
        invariant encoded + Escape(rest) == [END] + Escape(p)
        decreases |rest|
      {
        var c := rest[0];
        assert encoded + (EscapeOctet(c) + Escape(rest[1..])) == (encoded + EscapeOctet(c)) + Escape(rest[1..]);
        if c == END {
          encoded := encoded + [ESC, ESC_END];
        } else if c == ESC {
          encoded := encoded + [ESC, ESC_ESC];
        } else {
          encoded := encoded + [c];
        }
        rest := rest[1..];
      }
      assert encoded + [] == encoded;
      encoded := encoded + [END];
    }

    /** slipRecvWorker on the characters that arrive: what it passes on, up to an exception. */
    method Receive(line: Bytes) returns (passed: seq<Bytes>)
      modifies this
      ensures passed == Work(old(State()), old(stream), line)
    {
      passed := [];
      var rest := line;
      while rest != []
        invariant passed + Work(State(), stream, rest) == Work(old(State()), old(stream), line)
        decreases |rest|
      {
        var c := rest[0];
        AppendData([c]);
        rest := rest[1..];
        if c == END {
          var ok, list := Decode();
          if !ok { return; }
          passed := passed + NonEmpty(list);
        }
      }
    }
  }
}
