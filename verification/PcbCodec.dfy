/** The process control block as kernel and CPU send it to each other. */
module PcbCodec {
  import opened BitStrings
  import opened CTypes
  import opened Stream

  datatype Registers = Registers(
    pc: u32, ax: byte, bx: byte, cx: byte, dx: byte, eax: u32, ebx: u32, ecx: u32, edx: u32, si: u32, di: u32)

  /** State is the number of an enumeration; the texts are the reason and the details of a context switch. */
  datatype Pcb = Pcb(pid: u32, quantum: u32, registers: Registers, state: u32, reason: seq<byte>, info: seq<byte>)

  ghost predicate Sendable(p: Pcb) {
    && ZeroFree(p.reason) && ZeroFree(p.info)
    && |p.reason| + 1 < 0x1_0000_0000 && |p.info| + 1 < 0x1_0000_0000
  }

  function RegistersBytes(r: Registers): (s: seq<byte>)
    ensures |s| == 32
  {
    BytesOf(r.pc) + ([r.ax, r.bx, r.cx, r.dx] + (BytesOf(r.eax) + (BytesOf(r.ebx) + (BytesOf(r.ecx)
    + (BytesOf(r.edx) + (BytesOf(r.si) + BytesOf(r.di)))))))
  }

  /** The message: fields in this order, nothing between them. */
  function Encode(p: Pcb): (s: seq<byte>)
    requires |p.reason| + 1 < 0x1_0000_0000 && |p.info| + 1 < 0x1_0000_0000
    ensures |s| == 54 + |p.reason| + |p.info|
  {
    BytesOf(p.pid) + (BytesOf(p.quantum) + (RegistersBytes(p.registers) + (BytesOf(p.state)
    + (TextOf(p.reason) + TextOf(p.info)))))
  }

  function RegistersAt(s: seq<byte>, offset: nat): (r: Option<Registers>) {
    if offset + 32 > |s| then None
    else Some(Registers(
      NumberOf(s[offset..offset + 4]), s[offset + 4], s[offset + 5], s[offset + 6], s[offset + 7],
      NumberOf(s[offset + 8..offset + 12]), NumberOf(s[offset + 12..offset + 16]),
      NumberOf(s[offset + 16..offset + 20]), NumberOf(s[offset + 20..offset + 24]),
      NumberOf(s[offset + 24..offset + 28]), NumberOf(s[offset + 28..offset + 32])))
  }

  /** Reading the message: the block and the offset after it, if the stream holds it all. */
  function DecodeAt(s: seq<byte>): (r: Option<(Pcb, nat)>) {
    match (NumberAt(s, 0), NumberAt(s, 4), RegistersAt(s, 8), NumberAt(s, 40), TextAt(s, 44))
    case (Some(pid), Some(quantum), Some(registers), Some(state), Some((reason, next))) =>
      (match TextAt(s, next)
       case Some((info, end)) => Some((Pcb(pid, quantum, registers, state, reason, info), end))
       case None => None)
    case _ => None
  }

  /** Registers are read exactly where they were written. */
  lemma RegistersAtIff(s: seq<byte>, offset: nat, r: Registers)
    ensures RegistersAt(s, offset) == Some(r) <==> Holds(s, offset, RegistersBytes(r))
  {
    hide NumberOf, BytesOf, Holds;
    var o := offset;
    NumberAtIff(s, o, r.pc);
    NumberAtIff(s, o + 8, r.eax);
    NumberAtIff(s, o + 12, r.ebx);
    NumberAtIff(s, o + 16, r.ecx);
    NumberAtIff(s, o + 20, r.edx);
    NumberAtIff(s, o + 24, r.si);
    NumberAtIff(s, o + 28, r.di);
    FourBytes(s, o + 4, r.ax, r.bx, r.cx, r.dx);
    var seven := BytesOf(r.si) + BytesOf(r.di);
    var six := BytesOf(r.edx) + seven;
    var five := BytesOf(r.ecx) + six;
    var four := BytesOf(r.ebx) + five;
    var three := BytesOf(r.eax) + four;
    var two := [r.ax, r.bx, r.cx, r.dx] + three;
    HoldsSplit(s, o, BytesOf(r.pc), two);
    HoldsSplit(s, o + 4, [r.ax, r.bx, r.cx, r.dx], three);
    HoldsSplit(s, o + 8, BytesOf(r.eax), four);
    HoldsSplit(s, o + 12, BytesOf(r.ebx), five);
    HoldsSplit(s, o + 16, BytesOf(r.ecx), six);
    HoldsSplit(s, o + 20, BytesOf(r.edx), seven);
    HoldsSplit(s, o + 24, BytesOf(r.si), BytesOf(r.di));
    HoldsReach(s, o + 28, BytesOf(r.di));
  }

  lemma HoldsReach(s: seq<byte>, offset: nat, part: seq<byte>)
    ensures Holds(s, offset, part) ==> offset + |part| <= |s|
  {
  }

  lemma FourBytes(s: seq<byte>, offset: nat, a: byte, b: byte, c: byte, d: byte)
    ensures Holds(s, offset, [a, b, c, d])
        <==> offset + 4 <= |s| && s[offset] == a && s[offset + 1] == b && s[offset + 2] == c && s[offset + 3] == d
  {
    if offset + 4 <= |s| {
      var part := s[offset..offset + 4];
      assert part == [s[offset], s[offset + 1], s[offset + 2], s[offset + 3]];
    }
  }

  /** A block read is the block sent, and reader and writer end at the same offset, whatever follows. */
  lemma RoundTrip(p: Pcb, s: seq<byte>)
    requires Sendable(p) && Holds(s, 0, Encode(p))
    ensures DecodeAt(s) == Some((p, |Encode(p)|))
  {
    hide BytesOf, RegistersBytes, TextOf, NumberAt, RegistersAt, TextAt, Holds;
    var four := TextOf(p.reason) + TextOf(p.info);
    var three := BytesOf(p.state) + four;
    var two := RegistersBytes(p.registers) + three;
    var one := BytesOf(p.quantum) + two;
    TextLength(p.reason);
    HoldsSplit(s, 0, BytesOf(p.pid), one);
    HoldsSplit(s, 4, BytesOf(p.quantum), two);
    HoldsSplit(s, 8, RegistersBytes(p.registers), three);
    HoldsSplit(s, 40, BytesOf(p.state), four);
    HoldsSplit(s, 44, TextOf(p.reason), TextOf(p.info));
    NumberAtIff(s, 0, p.pid);
    NumberAtIff(s, 4, p.quantum);
    RegistersAtIff(s, 8, p.registers);
    NumberAtIff(s, 40, p.state);
    TextAtWritten(s, 44, p.reason);
    TextAtWritten(s, 44 + |TextOf(p.reason)|, p.info);
    TextLength(p.info);
  }

  lemma TextLength(text: seq<byte>)
    requires |text| + 1 < 0x1_0000_0000
    ensures |TextOf(text)| == |text| + 5
  {
  }

  /** Different blocks have different messages, and none is the beginning of another's. */
  lemma EncodePrefixFree(p: Pcb, q: Pcb, rest: seq<byte>)
    requires Sendable(p) && Sendable(q) && Encode(q) == Encode(p) + rest
    ensures p == q
  {
    hide Encode, DecodeAt;
    RoundTrip(p, Encode(q));
    RoundTrip(q, Encode(q));
  }

  /** The room made for a message: eleven of its fields are counted as pointers. */
  function PcbStreamSize(pointer: nat, p: Pcb): (n: nat) {
    4 + 4 + 11 * pointer + 4 + |p.reason| + 4 + |p.info|
  }

  /** The message fits exactly when pointers take at least four bytes, as they do. */
  lemma MessageFitsIff(pointer: nat, p: Pcb)
    requires |p.reason| + 1 < 0x1_0000_0000 && |p.info| + 1 < 0x1_0000_0000
    ensures |Encode(p)| <= PcbStreamSize(pointer, p) <==> pointer >= 4
  {
  }

  // ----- in place -----

  lemma FourPatches(s: seq<byte>, offset: nat, a: byte, b: byte, c: byte, d: byte)
    requires offset + 4 <= |s|
    ensures Patched(Patched(Patched(Patched(s, offset, [a]), offset + 1, [b]), offset + 2, [c]), offset + 3, [d])
         == Patched(s, offset, [a, b, c, d])
  {
    PatchTwice(s, offset, [a], [b]);
    assert [a] + [b] == [a, b];
    PatchTwice(s, offset, [a, b], [c]);
    assert [a, b] + [c] == [a, b, c];
    PatchTwice(s, offset, [a, b, c], [d]);
    assert [a, b, c] + [d] == [a, b, c, d];
  }

  method BufferAddCpuRegister(buffer: Buffer, r: Registers, offset: nat) returns (next: nat)
    requires offset + 32 <= buffer.stream.Length
    modifies buffer.stream
    ensures buffer.stream[..] == Patched(old(buffer.stream[..]), offset, RegistersBytes(r)) && next == offset + 32
  {
    hide BytesOf, NumberOf, Patched;
    ghost var s0 := buffer.stream[..];
    next := buffer.BufferAddUint32(r.pc, offset);
    ghost var s1 := buffer.stream[..];
    next := buffer.BufferAddUint8(r.ax, next);
    next := buffer.BufferAddUint8(r.bx, next);
    next := buffer.BufferAddUint8(r.cx, next);
    next := buffer.BufferAddUint8(r.dx, next);
    FourPatches(s1, offset + 4, r.ax, r.bx, r.cx, r.dx);
    ghost var s5 := buffer.stream[..];
    next := buffer.BufferAddUint32(r.eax, next);
    ghost var s6 := buffer.stream[..];
    next := buffer.BufferAddUint32(r.ebx, next);
    ghost var s7 := buffer.stream[..];
    next := buffer.BufferAddUint32(r.ecx, next);
    ghost var s8 := buffer.stream[..];
    next := buffer.BufferAddUint32(r.edx, next);
    ghost var s9 := buffer.stream[..];
    next := buffer.BufferAddUint32(r.si, next);
    next := buffer.BufferAddUint32(r.di, next);
    RegistersPatched(s0, s1, s5, s6, s7, s8, s9, buffer.stream[..], r, offset);
  }

  lemma RegistersPatched(s0: seq<byte>, s1: seq<byte>, s5: seq<byte>, s6: seq<byte>, s7: seq<byte>, s8: seq<byte>,
                         s9: seq<byte>, s: seq<byte>, r: Registers, offset: nat)
    requires offset + 32 <= |s0|
    requires s1 == Patched(s0, offset, BytesOf(r.pc))
    requires s5 == Patched(s1, offset + 4, [r.ax, r.bx, r.cx, r.dx])
    requires s6 == Patched(s5, offset + 8, BytesOf(r.eax)) && s7 == Patched(s6, offset + 12, BytesOf(r.ebx))
    requires s8 == Patched(s7, offset + 16, BytesOf(r.ecx)) && s9 == Patched(s8, offset + 20, BytesOf(r.edx))
    requires s == Patched(Patched(s9, offset + 24, BytesOf(r.si)), offset + 28, BytesOf(r.di))
    ensures s == Patched(s0, offset, RegistersBytes(r))
  {
    hide BytesOf, Patched;
    var six := BytesOf(r.si) + BytesOf(r.di);
    PatchTwice(s9, offset + 24, BytesOf(r.si), BytesOf(r.di));
    var five := BytesOf(r.edx) + six;
    PatchTwice(s8, offset + 20, BytesOf(r.edx), six);
    var four := BytesOf(r.ecx) + five;
    PatchTwice(s7, offset + 16, BytesOf(r.ecx), five);
    var three := BytesOf(r.ebx) + four;
    PatchTwice(s6, offset + 12, BytesOf(r.ebx), four);
    var two := BytesOf(r.eax) + three;
    PatchTwice(s5, offset + 8, BytesOf(r.eax), three);
    PatchTwice(s1, offset + 4, [r.ax, r.bx, r.cx, r.dx], two);
    PatchTwice(s0, offset, BytesOf(r.pc), [r.ax, r.bx, r.cx, r.dx] + two);
  }

  method PcbSerialize(buffer: Buffer, p: Pcb) returns (offset: nat)
    requires Sendable(p) && buffer.stream.Length >= PcbStreamSize(8, p)
    modifies buffer.stream
    ensures buffer.stream[..] == Patched(old(buffer.stream[..]), 0, Encode(p)) && offset == |Encode(p)|
  {
    hide BytesOf, NumberOf, Patched, RegistersBytes, TextOf;
    ghost var s0 := buffer.stream[..];
    offset := buffer.BufferAddUint32(p.pid, 0);
    ghost var s1 := buffer.stream[..];
    offset := buffer.BufferAddUint32(p.quantum, offset);
    ghost var s2 := buffer.stream[..];
    offset := BufferAddCpuRegister(buffer, p.registers, offset);
    ghost var s3 := buffer.stream[..];
    offset := buffer.BufferAddUint32(p.state, offset);
    ghost var s4 := buffer.stream[..];
    TextLength(p.reason);
    TextLength(p.info);
    offset := buffer.BufferAddString(p.reason, offset);
    offset := buffer.BufferAddString(p.info, offset);
    PcbPatched(s0, s1, s2, s3, s4, buffer.stream[..], p);
  }

  lemma PcbPatched(s0: seq<byte>, s1: seq<byte>, s2: seq<byte>, s3: seq<byte>, s4: seq<byte>, s: seq<byte>, p: Pcb)
    requires |p.reason| + 1 < 0x1_0000_0000 && |p.info| + 1 < 0x1_0000_0000
    requires |TextOf(p.reason)| == |p.reason| + 5 && |TextOf(p.info)| == |p.info| + 5
    requires 54 + |p.reason| + |p.info| <= |s0|
    requires s1 == Patched(s0, 0, BytesOf(p.pid)) && s2 == Patched(s1, 4, BytesOf(p.quantum))
    requires s3 == Patched(s2, 8, RegistersBytes(p.registers)) && s4 == Patched(s3, 40, BytesOf(p.state))
    requires s == Patched(Patched(s4, 44, TextOf(p.reason)), 49 + |p.reason|, TextOf(p.info))
    ensures s == Patched(s0, 0, Encode(p))
  {
    hide BytesOf, Patched, RegistersBytes, TextOf;
    PatchTwice(s4, 44, TextOf(p.reason), TextOf(p.info));
    var texts := TextOf(p.reason) + TextOf(p.info);
    PatchTwice(s3, 40, BytesOf(p.state), texts);
    PatchTwice(s2, 8, RegistersBytes(p.registers), BytesOf(p.state) + texts);
    var three := RegistersBytes(p.registers) + (BytesOf(p.state) + texts);
    PatchTwice(s1, 4, BytesOf(p.quantum), three);
    PatchTwice(s0, 0, BytesOf(p.pid), BytesOf(p.quantum) + three);
  }

  method BufferReadCpuRegister(buffer: Buffer, offset: nat) returns (r: Registers, next: nat)
    requires offset + 32 <= buffer.stream.Length
    ensures RegistersAt(buffer.stream[..], offset) == Some(r) && next == offset + 32
  {
    hide NumberOf;
    var pc, ax, bx, cx, dx;
    pc, next := buffer.BufferReadUint32(offset);
    ax, next := buffer.BufferReadUint8(next);
    bx, next := buffer.BufferReadUint8(next);
    cx, next := buffer.BufferReadUint8(next);
    dx, next := buffer.BufferReadUint8(next);
    var eax, ebx, ecx, edx, si, di;
    eax, next := buffer.BufferReadUint32(next);
    ebx, next := buffer.BufferReadUint32(next);
    ecx, next := buffer.BufferReadUint32(next);
    edx, next := buffer.BufferReadUint32(next);
    si, next := buffer.BufferReadUint32(next);
    di, next := buffer.BufferReadUint32(next);
    r := Registers(pc, ax, bx, cx, dx, eax, ebx, ecx, edx, si, di);
  }

  method PcbDeserialize(buffer: Buffer) returns (p: Pcb, offset: nat)
    requires DecodeAt(buffer.stream[..]).Some?
    ensures DecodeAt(buffer.stream[..]) == Some((p, offset))
  {
    hide NumberAt, RegistersAt, TextAt;
    NumberReach(buffer.stream[..]);
    var pid, quantum, registers, state, reason, info;
    pid, offset := buffer.BufferReadUint32(0);
    quantum, offset := buffer.BufferReadUint32(offset);
    registers, offset := BufferReadCpuRegister(buffer, offset);
    state, offset := buffer.BufferReadUint32(offset);
    reason, offset := buffer.BufferReadString(offset);
    info, offset := buffer.BufferReadString(offset);
    p := Pcb(pid, quantum, registers, state, reason, info);
  }

  lemma NumberReach(s: seq<byte>)
    requires DecodeAt(s).Some?
    ensures |s| >= 48
  {
  }

  /** Sent and received: what arrives is what was sent, and the stream was long enough. */
  method SendAndReceive(p: Pcb) returns (q: Pcb)
    requires Sendable(p)
    ensures q == p
  {
    var buffer := new Buffer(PcbStreamSize(8, p));
    var sent := PcbSerialize(buffer, p);
    assert Holds(buffer.stream[..], 0, Encode(p)) by { hide Encode; }
    RoundTrip(p, buffer.stream[..]);
    var received;
    q, received := PcbDeserialize(buffer);
  }

  // ----- the layout -----

  /** The registers, number by number, at their offsets from the start of theirs. */
  predicate RegistersLaid(s: seq<byte>, o: nat, r: Registers) {
    && NumberAt(s, o) == Some(r.pc)
    && o + 32 <= |s| && s[o + 4] == r.ax && s[o + 5] == r.bx && s[o + 6] == r.cx && s[o + 7] == r.dx
    && NumberAt(s, o + 8) == Some(r.eax) && NumberAt(s, o + 12) == Some(r.ebx)
    && NumberAt(s, o + 16) == Some(r.ecx) && NumberAt(s, o + 20) == Some(r.edx)
    && NumberAt(s, o + 24) == Some(r.si) && NumberAt(s, o + 28) == Some(r.di)
  }

  /** Which field is at which offset: exactly the streams that go on with the message have all of them there. */
  lemma LayoutIff(p: Pcb, s: seq<byte>)
    requires Sendable(p)
    ensures Holds(s, 0, Encode(p)) <==>
              && NumberAt(s, 0) == Some(p.pid) && NumberAt(s, 4) == Some(p.quantum)
              && RegistersLaid(s, 8, p.registers) && NumberAt(s, 40) == Some(p.state)
              && NumberAt(s, 44) == Some(|p.reason| + 1) && Holds(s, 48, p.reason + [0])
              && NumberAt(s, 49 + |p.reason|) == Some(|p.info| + 1) && Holds(s, 53 + |p.reason|, p.info + [0])
  {
    hide BytesOf, RegistersBytes, NumberAt, RegistersAt, Holds, RegistersLaid, NumberOf;
    var four := TextOf(p.reason) + TextOf(p.info);
    var three := BytesOf(p.state) + four;
    var two := RegistersBytes(p.registers) + three;
    var one := BytesOf(p.quantum) + two;
    TextLength(p.reason);
    HoldsSplit(s, 0, BytesOf(p.pid), one);
    HoldsSplit(s, 4, BytesOf(p.quantum), two);
    HoldsSplit(s, 8, RegistersBytes(p.registers), three);
    HoldsSplit(s, 40, BytesOf(p.state), four);
    HoldsSplit(s, 44, TextOf(p.reason), TextOf(p.info));
    NumberAtIff(s, 0, p.pid);
    NumberAtIff(s, 4, p.quantum);
    NumberAtIff(s, 40, p.state);
    RegistersLaidIff(s, 8, p.registers);
    TextLaidIff(s, 44, p.reason);
    TextLaidIff(s, 49 + |p.reason|, p.info);
  }

  lemma TextLaidIff(s: seq<byte>, offset: nat, text: seq<byte>)
    requires |text| + 1 < 0x1_0000_0000
    ensures Holds(s, offset, TextOf(text))
        <==> NumberAt(s, offset) == Some(|text| + 1) && Holds(s, offset + 4, text + [0])
  {
    hide BytesOf, NumberAt, Holds;
    assert TextOf(text) == BytesOf(|text| + 1) + (text + [0]);
    HoldsSplit(s, offset, BytesOf(|text| + 1), text + [0]);
    NumberAtIff(s, offset, |text| + 1);
  }

  lemma RegistersLaidIff(s: seq<byte>, o: nat, r: Registers)
    ensures Holds(s, o, RegistersBytes(r)) <==> RegistersLaid(s, o, r)
  {
    hide RegistersBytes, BytesOf, Holds;
    RegistersAtIff(s, o, r);
  }
}
