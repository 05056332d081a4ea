/** The plugin adapter: it decodes incoming MIDI channel voice messages into calls on
    the plugin's note hooks, builds outgoing note messages, and splits each host block
    into chunks of at most `BufferSize` frames. Before each chunk it hands over, in the
    host's order, the pending events up to the first whose frame is past the chunk
    offset. Message layouts follow the Channel Voice Messages
    section of the MIDI 1.0 Detailed Specification. */
module ExtendedPlugin {

  type Byte = b: int | 0 <= b < 256
  type Channel = c: int | 0 <= c < 16

  /** Largest number of frames handed to the plugin's `process` at once. */
  const BufferSize: nat := 128

  const NoteOffType: Byte := 0x80
  const NoteOnType: Byte := 0x90
  const ControlChangeType: Byte := 0xB0
  const PitchBendType: Byte := 0xE0
  /** Controller number of the sustain (damper) pedal. */
  const SustainController: Byte := 64

  /** The four inline data bytes of a host MIDI event; `size` says how many are used. */
  type MidiData = d: seq<Byte> | |d| == 4 witness [0, 0, 0, 0]

  datatype MidiEvent = MidiEvent(frame: nat, size: nat, data: MidiData)

  /** The hook a decoded event is delivered to, with its arguments. */
  datatype Callback =
    | NoteOn(note: Byte, velocity: Byte, channel: Channel, frame: nat)
    | NoteOff(note: Byte, channel: Channel, frame: nat)
    | Sustain(channel: Channel, on: bool, frame: nat)
    | PitchBend(channel: Channel, value: int, frame: nat)
    | NoCallback

  /** The low nibble of a status byte (`& 0x0F`). */
  function ChannelOf(status: Byte): Channel {
    status % 16
  }

  /** The high nibble of a status byte (`& 0xF0`). */
  function TypeOf(status: Byte): Byte {
    status - status % 16
  }

  /** Conversion of an `int` to `uint8_t`: reduction modulo 256. */
  function ToByte(x: int): Byte {
    x % 256
  }

  /** `lsb | (msb << 7)` on integers. The two operands share only bit 7, which the
      first holds as its top bit and the second as the low bit of `msb`;
      `PitchBendBitwise` proves the formula for all bytes. */
  function PitchBendValue(lsb: Byte, msb: Byte): int {
    lsb % 128 + 128 * (if lsb >= 128 && msb % 2 == 0 then msb + 1 else msb)
  }

  /** With proper 7-bit data bytes, the bend value is the 14-bit number they form. */
  lemma PitchBendFourteenBits(lsb: Byte, msb: Byte)
    requires lsb < 128 && msb < 128
    ensures PitchBendValue(lsb, msb) == lsb + 128 * msb
    ensures 0 <= PitchBendValue(lsb, msb) < 0x4000
  {
  }

  /** `a | b` on naturals, one bit at a time from the lowest. */
  function BitOr(a: nat, b: nat): nat
    decreases a + b
  {
    if a == 0 && b == 0 then 0
    else (if a % 2 == 1 || b % 2 == 1 then 1 else 0) + 2 * BitOr(a / 2, b / 2)
  }

  /** `x << k` on naturals. */
  function ShiftLeft(x: nat, k: nat): nat {
    if k == 0 then x else 2 * ShiftLeft(x, k - 1)
  }

  lemma {:induction false} OrZero(b: nat)
    ensures BitOr(0, b) == b
    decreases b
  {
    if b > 0 {
      OrZero(b / 2);
    }
  }

  /** Below bit `k` only the first operand has bits; from bit `k` on the two are or-ed. */
  lemma {:induction false} OrAbove(r: nat, h: nat, m: nat, k: nat)
    requires r < ShiftLeft(1, k)
    ensures BitOr(r + ShiftLeft(h, k), ShiftLeft(m, k)) == r + ShiftLeft(BitOr(h, m), k)
    decreases k
  {
    if k > 0 {
      var x := r + ShiftLeft(h, k);
      assert x % 2 == r % 2 && x / 2 == r / 2 + ShiftLeft(h, k - 1);
      OrAbove(r / 2, h, m, k - 1);
    }
  }

  lemma ShiftSeven(x: nat)
    ensures ShiftLeft(x, 7) == 128 * x
  {
    assert ShiftLeft(x, 1) == 2 * x;
    assert ShiftLeft(x, 2) == 4 * x;
    assert ShiftLeft(x, 3) == 8 * x;
    assert ShiftLeft(x, 4) == 16 * x;
    assert ShiftLeft(x, 5) == 32 * x;
    assert ShiftLeft(x, 6) == 64 * x;
  }

  /** For any two bytes, the bend value is `lsb | (msb << 7)` bit for bit. */
  lemma PitchBendBitwise(lsb: Byte, msb: Byte)
    ensures PitchBendValue(lsb, msb) == BitOr(lsb, ShiftLeft(msb, 7))
  {
    var h := lsb / 128;
    ShiftSeven(1);
    ShiftSeven(h);
    ShiftSeven(msb);
    ShiftSeven(BitOr(h, msb));
    OrAbove(lsb % 128, h, msb, 7);
    OrZero(msb);
    OrZero(msb / 2);
  }

  /** The decoder, parameterised by the least size at which a Control Change is read. */
  function Decode(ev: MidiEvent, ccMinSize: nat): (c: Callback)
    ensures (ev.size <= 1 || ev.size > 4) ==> c == NoCallback
    ensures !c.NoCallback? ==> c.frame == ev.frame && c.channel == ev.data[0] % 16
  {
    if 1 < ev.size <= 4 then
      var chan := ChannelOf(ev.data[0]);
      var kind := TypeOf(ev.data[0]);
      if kind == NoteOnType then
        if ev.size > 2 then NoteOn(ev.data[1], ev.data[2], chan, ev.frame) else NoCallback
      else if kind == NoteOffType then
        if ev.size > 1 then NoteOff(ev.data[1], chan, ev.frame) else NoCallback
      else if kind == ControlChangeType then
        if ev.size >= ccMinSize && ev.data[1] == SustainController
        then Sustain(chan, ev.data[2] >= 64, ev.frame)
        else NoCallback
      else if kind == PitchBendType then
        if ev.size > 2 then PitchBend(chan, PitchBendValue(ev.data[1], ev.data[2]), ev.frame)
        else NoCallback
      else NoCallback
    else NoCallback
  }

  /** The decoder as written: a Control Change is read only from a four-byte event.
      Within the size gate the status byte's high nibble picks the hook, its low nibble
      is the channel, and the data bytes are passed on; anything else reaches no hook. */
  function ProcessMidiEvent(ev: MidiEvent): (c: Callback)
    ensures (ev.size <= 1 || ev.size > 4) ==> c == NoCallback
    ensures c.Sustain? ==> ev.size == 4 && ev.data[1] == SustainController && c.on == (ev.data[2] >= 64)
    ensures c.NoteOn? ==> ev.size >= 3 && TypeOf(ev.data[0]) == NoteOnType
    ensures c.NoteOff? ==> TypeOf(ev.data[0]) == NoteOffType
    ensures 2 < ev.size <= 4 && TypeOf(ev.data[0]) == NoteOnType ==>
      c == NoteOn(ev.data[1], ev.data[2], ev.data[0] % 16, ev.frame)
    ensures 1 < ev.size <= 4 && TypeOf(ev.data[0]) == NoteOffType ==>
      c == NoteOff(ev.data[1], ev.data[0] % 16, ev.frame)
    ensures 1 < ev.size <= 4 && TypeOf(ev.data[0]) == ControlChangeType ==>
      c == if ev.size == 4 && ev.data[1] == SustainController
           then Sustain(ev.data[0] % 16, ev.data[2] >= 64, ev.frame)
           else NoCallback
    ensures 2 < ev.size <= 4 && TypeOf(ev.data[0]) == PitchBendType ==>
      c == PitchBend(ev.data[0] % 16, PitchBendValue(ev.data[1], ev.data[2]), ev.frame)
    ensures ev.size == 2 && TypeOf(ev.data[0]) != NoteOffType ==> c == NoCallback
    ensures !(TypeOf(ev.data[0]) == NoteOnType || TypeOf(ev.data[0]) == NoteOffType
              || TypeOf(ev.data[0]) == ControlChangeType || TypeOf(ev.data[0]) == PitchBendType) ==>
      c == NoCallback
  {
    Decode(ev, 4)
  }

  /** The decoder with the Control Change read from the three bytes it occupies; in
      every other respect it is the decoder as written. */
  function ProcessMidiEventCorrected(ev: MidiEvent): (c: Callback)
    ensures (ev.size <= 1 || ev.size > 4) ==> c == NoCallback
    ensures c.Sustain? ==> ev.size >= 3 && ev.data[1] == SustainController && c.on == (ev.data[2] >= 64)
    ensures 2 < ev.size <= 4 && TypeOf(ev.data[0]) == NoteOnType ==>
      c == NoteOn(ev.data[1], ev.data[2], ev.data[0] % 16, ev.frame)
    ensures 1 < ev.size <= 4 && TypeOf(ev.data[0]) == NoteOffType ==>
      c == NoteOff(ev.data[1], ev.data[0] % 16, ev.frame)
    ensures 1 < ev.size <= 4 && TypeOf(ev.data[0]) == ControlChangeType ==>
      c == if ev.size >= 3 && ev.data[1] == SustainController
           then Sustain(ev.data[0] % 16, ev.data[2] >= 64, ev.frame)
           else NoCallback
    ensures 2 < ev.size <= 4 && TypeOf(ev.data[0]) == PitchBendType ==>
      c == PitchBend(ev.data[0] % 16, PitchBendValue(ev.data[1], ev.data[2]), ev.frame)
    ensures ev.size == 2 && TypeOf(ev.data[0]) != NoteOffType ==> c == NoCallback
    ensures !(TypeOf(ev.data[0]) == NoteOnType || TypeOf(ev.data[0]) == NoteOffType
              || TypeOf(ev.data[0]) == ControlChangeType || TypeOf(ev.data[0]) == PitchBendType) ==>
      c == NoCallback
  {
    Decode(ev, 3)
  }

  /** The builder of an outgoing Note On; the channel is masked to four bits. The
      fourth data byte is unused by a three-byte event and is set to 0 here. */
  function NoteOnEvent(note: Byte, velocity: Byte, channel: Byte, frame: nat): (ev: MidiEvent)
    ensures ev.size == 3 && ev.frame == frame
    ensures NoteOnType <= ev.data[0] < NoteOnType + 16
  {
    MidiEvent(frame, 3, [NoteOnType + channel % 16, note, velocity, 0])
  }

  /** The builder of an outgoing Note Off, with release velocity 0. */
  function NoteOffEvent(note: Byte, channel: Byte, frame: nat): (ev: MidiEvent)
    ensures ev.size == 3 && ev.frame == frame
    ensures NoteOffType <= ev.data[0] < NoteOffType + 16 && ev.data[2] == 0
  {
    MidiEvent(frame, 3, [NoteOffType + channel % 16, note, 0, 0])
  }

  lemma StatusByteSplits(kind: Byte, channel: Byte)
    requires kind % 16 == 0 && kind + channel % 16 < 256
    ensures ChannelOf(kind + channel % 16) == channel % 16
    ensures TypeOf(kind + channel % 16) == kind
  {
  }

  /** Round trip: decoding a built Note On gives back its note, velocity (0 included: it
      is not turned into a Note Off) and frame, with the channel masked to 0..15. */
  lemma DecodeNoteOnEvent(note: Byte, velocity: Byte, channel: Byte, frame: nat)
    ensures ProcessMidiEvent(NoteOnEvent(note, velocity, channel, frame))
         == NoteOn(note, velocity, channel % 16, frame)
  {
    StatusByteSplits(NoteOnType, channel);
  }

  /** Round trip: decoding a built Note Off gives back its note, masked channel and frame. */
  lemma DecodeNoteOffEvent(note: Byte, channel: Byte, frame: nat)
    ensures ProcessMidiEvent(NoteOffEvent(note, channel, frame)) == NoteOff(note, channel % 16, frame)
  {
    StatusByteSplits(NoteOffType, channel);
  }

  /** The other direction: a three-byte event decoded as a Note On is rebuilt from the
      decoded fields byte for byte. */
  lemma ReencodeNoteOn(ev: MidiEvent)
    requires ev.size == 3 && ProcessMidiEvent(ev).NoteOn?
    ensures var c := ProcessMidiEvent(ev);
      NoteOnEvent(c.note, c.velocity, c.channel, c.frame).data[..3] == ev.data[..3]
  {
    var c := ProcessMidiEvent(ev);
    assert ev.data[0] == TypeOf(ev.data[0]) + ChannelOf(ev.data[0]);
    assert c.channel % 16 == c.channel;
  }

  /** A three-byte event decoded as a Note Off is rebuilt except for its release
      velocity, which the decoder drops and the builder sets to 0. */
  lemma ReencodeNoteOff(ev: MidiEvent)
    requires ev.size == 3 && ProcessMidiEvent(ev).NoteOff?
    ensures var c := ProcessMidiEvent(ev);
      NoteOffEvent(c.note, c.channel, c.frame).data[..2] == ev.data[..2]
  {
    var c := ProcessMidiEvent(ev);
    assert ev.data[0] == TypeOf(ev.data[0]) + ChannelOf(ev.data[0]);
    assert c.channel % 16 == c.channel;
  }

  /** A four-byte sustain message reaches the sustain hook with either decoder; the
      fourth byte is ignored. */
  lemma FourByteSustain(channel: Channel, value: Byte, last: Byte, frame: nat)
    ensures var ev := MidiEvent(frame, 4, [ControlChangeType + channel, SustainController, value, last]);
      && ProcessMidiEvent(ev) == Sustain(channel, value >= 64, frame)
      && ProcessMidiEventCorrected(ev) == Sustain(channel, value >= 64, frame)
  {
    StatusByteSplits(ControlChangeType, channel);
  }

  /** As written, a standard three-byte sustain message reaches no hook. */
  lemma ThreeByteSustainIgnored(channel: Channel, value: Byte, frame: nat)
    ensures ProcessMidiEvent(MidiEvent(frame, 3, [ControlChangeType + channel, SustainController, value, 0]))
         == NoCallback
  {
    StatusByteSplits(ControlChangeType, channel);
  }

  /** The corrected decoder delivers it to the sustain hook. */
  lemma ThreeByteSustainCorrected(channel: Channel, value: Byte, frame: nat)
    ensures ProcessMidiEventCorrected(MidiEvent(frame, 3, [ControlChangeType + channel, SustainController, value, 0]))
         == Sustain(channel, value >= 64, frame)
  {
    StatusByteSplits(ControlChangeType, channel);
  }

  /** The correction changes nothing but three-byte sustain messages. */
  lemma CorrectionOnlyAddsSustain(ev: MidiEvent)
    ensures ProcessMidiEventCorrected(ev) != ProcessMidiEvent(ev) ==>
      ev.size == 3 && ProcessMidiEvent(ev) == NoCallback && ProcessMidiEventCorrected(ev).Sustain?
  {
  }

  // ---------------------------------------------------------------------------
  // Block processing: the order in which a block's hooks are called.

  /** One call the adapter makes on the plugin: a MIDI event handed to the decoder, or
      `process` on `nbSamples` frames starting at `frame`. */
  datatype Call = Midi(event: MidiEvent) | Process(nbSamples: nat, frame: nat)

  function Min(a: int, b: int): int {
    if a <= b then a else b
  }

  /** The MIDI events among the calls, in call order. */
  function Events(calls: seq<Call>): seq<MidiEvent> {
    if calls == [] then []
    else
      var last := calls[|calls| - 1];
      Events(calls[..|calls| - 1]) + (if last.Midi? then [last.event] else [])
  }

  /** The `process` calls, in call order. */
  function Chunks(calls: seq<Call>): (chunks: seq<Call>)
    ensures forall i :: 0 <= i < |chunks| ==> chunks[i].Process?
  {
    if calls == [] then []
    else
      var last := calls[|calls| - 1];
      Chunks(calls[..|calls| - 1]) + (if last.Process? then [last] else [])
  }

  /** The total number of frames the chunks cover. */
  function Covered(chunks: seq<Call>): nat {
    if chunks == [] then 0
    else
      var last := chunks[|chunks| - 1];
      Covered(chunks[..|chunks| - 1]) + (if last.Process? then last.nbSamples else 0)
  }

  /** How many events, from the start, may be delivered before a chunk at offset `k`:
      the longest prefix whose frames are all at most `k`. */
  function DueBy(events: seq<MidiEvent>, k: nat): (n: nat)
    ensures n <= |events|
  {
    if events == [] || events[0].frame > k then 0 else 1 + DueBy(events[1..], k)
  }

  /** The chunks cut a block of `frames` frames into consecutive pieces from offset 0,
      each `BufferSize` long except possibly the last. */
  ghost predicate Tiles(chunks: seq<Call>, frames: nat) {
    && (forall i :: 0 <= i < |chunks| ==>
          chunks[i].Process? && chunks[i].frame < frames
          && chunks[i].nbSamples == Min(BufferSize, frames - chunks[i].frame))
    && (|chunks| > 0 ==> chunks[0].frame == 0)
    && (forall i :: 0 < i < |chunks| ==> chunks[i].frame == chunks[i - 1].frame + chunks[i - 1].nbSamples)
    && Covered(chunks) == frames
  }

  /** Every event is delivered once, in order; the chunks tile the block; and the events
      delivered before a chunk at offset `k` are exactly the first `DueBy(events, k)`. */
  ghost predicate IsSchedule(frames: nat, events: seq<MidiEvent>, calls: seq<Call>) {
    && Events(calls) == events
    && Tiles(Chunks(calls), frames)
    && forall q :: 0 <= q < |calls| && calls[q].Process? ==>
         Events(calls[..q]) == events[..DueBy(events, calls[q].frame)]
  }

  lemma {:induction false} DueByExact(events: seq<MidiEvent>, k: nat, n: nat)
    requires n <= |events|
    requires forall j :: 0 <= j < n ==> events[j].frame <= k
    requires n == |events| || events[n].frame > k
    ensures DueBy(events, k) == n
  {
    if n > 0 {
      DueByExact(events[1..], k, n - 1);
    }
  }

  /** With events in non-decreasing frame order, as hosts deliver them, an event is
      delivered before the chunk at offset `k` exactly when its frame is at most `k`. */
  lemma {:induction false} DueBySorted(events: seq<MidiEvent>, k: nat)
    requires forall i, j :: 0 <= i < j < |events| ==> events[i].frame <= events[j].frame
    ensures forall i :: 0 <= i < |events| ==> (i < DueBy(events, k) <==> events[i].frame <= k)
  {
    if events != [] && events[0].frame <= k {
      DueBySorted(events[1..], k);
      forall i | 0 < i < |events| ensures events[i] == events[1..][i - 1] {}
    }
  }

  lemma AppendMidi(calls: seq<Call>, ev: MidiEvent)
    ensures Events(calls + [Midi(ev)]) == Events(calls) + [ev]
    ensures Chunks(calls + [Midi(ev)]) == Chunks(calls)
  {
    assert (calls + [Midi(ev)])[..|calls|] == calls;
  }

  lemma AppendProcess(calls: seq<Call>, n: nat, k: nat)
    ensures Events(calls + [Process(n, k)]) == Events(calls)
    ensures Chunks(calls + [Process(n, k)]) == Chunks(calls) + [Process(n, k)]
  {
    assert (calls + [Process(n, k)])[..|calls|] == calls;
  }

  /** The chunks cut the frames before offset `k` into consecutive pieces from offset 0,
      each `BufferSize` long except a last one cut short at `frames`. */
  ghost predicate TilesUpTo(chunks: seq<Call>, frames: nat, k: nat)
    decreases |chunks|
  {
    if chunks == [] then k == 0
    else
      var last := chunks[|chunks| - 1];
      && last.Process? && last.frame < frames
      && last.nbSamples == Min(BufferSize, frames - last.frame)
      && last.frame + last.nbSamples == k
      && TilesUpTo(chunks[..|chunks| - 1], frames, last.frame)
  }

  lemma {:induction false} TilesUpToSpec(chunks: seq<Call>, frames: nat, k: nat)
    requires TilesUpTo(chunks, frames, k)
    ensures forall i :: 0 <= i < |chunks| ==>
              chunks[i].Process? && chunks[i].frame < frames
              && chunks[i].nbSamples == Min(BufferSize, frames - chunks[i].frame)
    ensures |chunks| > 0 ==> chunks[0].frame == 0
    ensures forall i :: 0 < i < |chunks| ==> chunks[i].frame == chunks[i - 1].frame + chunks[i - 1].nbSamples
    ensures |chunks| > 0 ==> chunks[|chunks| - 1].frame + chunks[|chunks| - 1].nbSamples == k
    ensures Covered(chunks) == k
    decreases |chunks|
  {
    if chunks != [] {
      var before := chunks[..|chunks| - 1];
      TilesUpToSpec(before, frames, chunks[|chunks| - 1].frame);
      assert forall i :: 0 <= i < |before| ==> chunks[i] == before[i];
    }
  }

  lemma {:induction false} TilesIncrease(chunks: seq<Call>, frames: nat, i: nat, j: nat)
    requires Tiles(chunks, frames) && i < j < |chunks|
    ensures chunks[i].frame < chunks[j].frame
    decreases j - i
  {
    if i + 1 < j {
      TilesIncrease(chunks, frames, i, j - 1);
    }
  }

  /** The events handed over before each chunk are exactly those due by its offset. */
  ghost predicate DeliveredInOrder(calls: seq<Call>, events: seq<MidiEvent>)
    decreases |calls|
  {
    if calls == [] then true
    else
      var before := calls[..|calls| - 1];
      && DeliveredInOrder(before, events)
      && (calls[|calls| - 1].Process? ==>
            Events(before) == events[..DueBy(events, calls[|calls| - 1].frame)])
  }

  lemma {:induction false} DeliveredInOrderSpec(calls: seq<Call>, events: seq<MidiEvent>)
    requires DeliveredInOrder(calls, events)
    ensures forall q :: 0 <= q < |calls| && calls[q].Process? ==>
              Events(calls[..q]) == events[..DueBy(events, calls[q].frame)]
    decreases |calls|
  {
    if calls != [] {
      var before := calls[..|calls| - 1];
      DeliveredInOrderSpec(before, events);
      forall q | 0 <= q < |calls| && calls[q].Process?
        ensures Events(calls[..q]) == events[..DueBy(events, calls[q].frame)]
      {
        if q < |before| {
          assert calls[..q] == before[..q];
          assert calls[q] == before[q];
        } else {
          assert calls[..q] == before;
        }
      }
    }
  }

  /** The first `m` events and the chunks before offset `k` have been handed over, in
      order; while chunks remain, every event handed over was due by offset `k`. */
  ghost predicate HandedOver(frames: nat, events: seq<MidiEvent>, calls: seq<Call>, k: nat, m: nat) {
    && k <= frames && m <= |events|
    && Events(calls) == events[..m]
    && TilesUpTo(Chunks(calls), frames, k)
    && DeliveredInOrder(calls, events)
    && (k < frames ==> forall j :: 0 <= j < m ==> events[j].frame <= k)
  }

  lemma DeliverStep(frames: nat, events: seq<MidiEvent>, calls: seq<Call>, k: nat, m: nat)
    requires HandedOver(frames, events, calls, k, m) && m < |events|
    requires k < frames ==> events[m].frame <= k
    ensures HandedOver(frames, events, calls + [Midi(events[m])], k, m + 1)
  {
    AppendMidi(calls, events[m]);
    assert (calls + [Midi(events[m])])[..|calls|] == calls;
    assert events[..m + 1] == events[..m] + [events[m]];
  }

  lemma ChunkStep(frames: nat, events: seq<MidiEvent>, calls: seq<Call>, k: nat, m: nat)
    requires HandedOver(frames, events, calls, k, m) && k < frames
    requires m == |events| || events[m].frame > k
    ensures HandedOver(frames, events, calls + [Process(Min(BufferSize, frames - k), k)],
                       k + Min(BufferSize, frames - k), m)
  {
    var c := Process(Min(BufferSize, frames - k), k);
    AppendProcess(calls, c.nbSamples, k);
    assert (calls + [c])[..|calls|] == calls;
    assert (Chunks(calls) + [c])[..|Chunks(calls)|] == Chunks(calls);
    DueByExact(events, k, m);
  }

  lemma TilesDone(chunks: seq<Call>, frames: nat)
    requires TilesUpTo(chunks, frames, frames)
    ensures Tiles(chunks, frames)
    ensures forall i, j :: 0 <= i < j < |chunks| ==> chunks[i].frame < chunks[j].frame
  {
    TilesUpToSpec(chunks, frames, frames);
    forall i, j | 0 <= i < j < |chunks| ensures chunks[i].frame < chunks[j].frame {
      TilesIncrease(chunks, frames, i, j);
    }
  }

  lemma Finished(frames: nat, events: seq<MidiEvent>, calls: seq<Call>)
    requires HandedOver(frames, events, calls, frames, |events|)
    ensures IsSchedule(frames, events, calls)
    ensures forall i, j :: 0 <= i < j < |Chunks(calls)| ==> Chunks(calls)[i].frame < Chunks(calls)[j].frame
  {
    assert events[..|events|] == events;
    TilesDone(Chunks(calls), frames);
    DeliveredInOrderSpec(calls, events);
  }

  /** The calls the block loop makes from offset `k` on, once the first `m` events have
      been handed over: the loop's specification, one call at a time. */
  function Rest(frames: nat, events: seq<MidiEvent>, k: nat, m: nat): seq<Call>
    requires k <= frames && m <= |events|
    decreases frames - k, |events| - m
  {
    if k < frames && !(m < |events| && events[m].frame <= k) then
      var size := Min(BufferSize, frames - k);
      [Process(size, k)] + Rest(frames, events, k + size, m)
    else if m < |events| then
      [Midi(events[m])] + Rest(frames, events, k, m + 1)
    else
      []
  }

  /** Every remaining chunk lies within the block, after offset `k`, and holds between
      1 and `BufferSize` frames; every remaining event is one not yet handed over; and
      while frames remain, some call remains. */
  lemma {:induction false} RestWithinBlock(frames: nat, events: seq<MidiEvent>, k: nat, m: nat)
    requires k <= frames && m <= |events|
    ensures forall i :: 0 <= i < |Rest(frames, events, k, m)| && Rest(frames, events, k, m)[i].Process? ==>
              && k <= Rest(frames, events, k, m)[i].frame < frames
              && 1 <= Rest(frames, events, k, m)[i].nbSamples <= BufferSize
              && Rest(frames, events, k, m)[i].frame + Rest(frames, events, k, m)[i].nbSamples <= frames
    ensures forall i :: 0 <= i < |Rest(frames, events, k, m)| && Rest(frames, events, k, m)[i].Midi? ==>
              Rest(frames, events, k, m)[i].event in events[m..]
    ensures k < frames ==> |Rest(frames, events, k, m)| > 0
    decreases frames - k, |events| - m
  {
    var r := Rest(frames, events, k, m);
    if k < frames && !(m < |events| && events[m].frame <= k) {
      var size := Min(BufferSize, frames - k);
      RestWithinBlock(frames, events, k + size, m);
      assert forall i :: 1 <= i < |r| ==> r[i] == Rest(frames, events, k + size, m)[i - 1];
    } else if m < |events| {
      var tail := Rest(frames, events, k, m + 1);
      RestWithinBlock(frames, events, k, m + 1);
      assert forall i :: 1 <= i < |r| ==> r[i] == tail[i - 1];
      assert forall e :: e in events[m + 1..] ==> e in events[m..];
    }
  }

  lemma Regroup(calls: seq<Call>, c: Call, rest: seq<Call>)
    ensures calls + [c] + rest == calls + ([c] + rest)
  {
  }

  /** The loop's next call is a chunk: it extends what has been handed over. */
  lemma RestChunk(frames: nat, events: seq<MidiEvent>, calls: seq<Call>, k: nat, m: nat)
    requires HandedOver(frames, events, calls, k, m)
    requires k < frames && !(m < |events| && events[m].frame <= k)
    ensures HandedOver(frames, events, calls + [Process(Min(BufferSize, frames - k), k)],
                       k + Min(BufferSize, frames - k), m)
    ensures calls + Rest(frames, events, k, m)
         == calls + [Process(Min(BufferSize, frames - k), k)] + Rest(frames, events, k + Min(BufferSize, frames - k), m)
  {
    var size := Min(BufferSize, frames - k);
    ChunkStep(frames, events, calls, k, m);
    Regroup(calls, Process(size, k), Rest(frames, events, k + size, m));
  }

  /** The loop's next call delivers an event: it extends what has been handed over. */
  lemma RestEvent(frames: nat, events: seq<MidiEvent>, calls: seq<Call>, k: nat, m: nat)
    requires HandedOver(frames, events, calls, k, m) && m < |events|
    requires !(k < frames && !(events[m].frame <= k))
    ensures && HandedOver(frames, events, calls + [Midi(events[m])], k, m + 1)
            && calls + Rest(frames, events, k, m) == calls + [Midi(events[m])] + Rest(frames, events, k, m + 1)
  {
    DeliverStep(frames, events, calls, k, m);
    Regroup(calls, Midi(events[m]), Rest(frames, events, k, m + 1));
  }

  /** Whatever has been handed over in order so far, the remaining calls complete it. */
  lemma {:induction false} RestCompletes(frames: nat, events: seq<MidiEvent>, calls: seq<Call>, k: nat, m: nat,
                                         all: seq<Call>)
    requires HandedOver(frames, events, calls, k, m)
    requires all == calls + Rest(frames, events, k, m)
    ensures HandedOver(frames, events, all, frames, |events|)
    decreases frames - k, |events| - m
  {
    if k < frames && !(m < |events| && events[m].frame <= k) {
      RestChunk(frames, events, calls, k, m);
      RestCompletes(frames, events, calls + [Process(Min(BufferSize, frames - k), k)],
                    k + Min(BufferSize, frames - k), m, all);
    } else if m < |events| {
      RestEvent(frames, events, calls, k, m);
      RestCompletes(frames, events, calls + [Midi(events[m])], k, m + 1, all);
    } else {
      assert all == calls;
    }
  }

  /** The calls of a whole block form a schedule whose chunks advance strictly. */
  lemma BlockSchedules(frames: nat, events: seq<MidiEvent>)
    ensures IsSchedule(frames, events, Rest(frames, events, 0, 0))
    ensures var chunks := Chunks(Rest(frames, events, 0, 0));
            forall i, j :: 0 <= i < j < |chunks| ==> chunks[i].frame < chunks[j].frame
  {
    assert Events([]) == events[..0];
    assert [] + Rest(frames, events, 0, 0) == Rest(frames, events, 0, 0);
    RestCompletes(frames, events, [], 0, 0, Rest(frames, events, 0, 0));
    Finished(frames, events, Rest(frames, events, 0, 0));
  }

  /** The adapter's block loop, returning the calls it makes on the plugin in order:
      before each chunk it delivers the pending events whose frame is not past the chunk
      offset, stopping at the first that is; events left after the last chunk (all of
      them for an empty block) are delivered at the end. */
  method Run(frames: nat, events: seq<MidiEvent>) returns (calls: seq<Call>)
    ensures calls == Rest(frames, events, 0, 0)
    ensures IsSchedule(frames, events, calls)
    ensures forall i, j :: 0 <= i < j < |Chunks(calls)| ==> Chunks(calls)[i].frame < Chunks(calls)[j].frame
  {
    calls := [];
    var k: nat := 0;
    var midiEventNum: nat := 0;
    while k < frames
      invariant k <= frames && midiEventNum <= |events|
      invariant calls + Rest(frames, events, k, midiEventNum) == Rest(frames, events, 0, 0)
    {
      var chunkSize: nat := if frames - k >= BufferSize then BufferSize else frames - k;
      // deliver the events due before this chunk, stopping at the first one past it
      while midiEventNum < |events| && events[midiEventNum].frame <= k
        invariant midiEventNum <= |events|
        invariant calls + Rest(frames, events, k, midiEventNum) == Rest(frames, events, 0, 0)
      {
        Regroup(calls, Midi(events[midiEventNum]), Rest(frames, events, k, midiEventNum + 1));
        calls := calls + [Midi(events[midiEventNum])];
        midiEventNum := midiEventNum + 1;
      }
      assert chunkSize == Min(BufferSize, frames - k);
      assert Rest(frames, events, k, midiEventNum)
          == [Process(chunkSize, k)] + Rest(frames, events, k + chunkSize, midiEventNum);
      Regroup(calls, Process(chunkSize, k), Rest(frames, events, k + chunkSize, midiEventNum));
      calls := calls + [Process(chunkSize, k)];
      k := k + chunkSize;
    }
    // events left over after the last chunk
    while midiEventNum < |events|
      invariant midiEventNum <= |events|
      invariant calls + Rest(frames, events, frames, midiEventNum) == Rest(frames, events, 0, 0)
    {
      Regroup(calls, Midi(events[midiEventNum]), Rest(frames, events, frames, midiEventNum + 1));
      calls := calls + [Midi(events[midiEventNum])];
      midiEventNum := midiEventNum + 1;
    }
    assert calls == calls + Rest(frames, events, frames, midiEventNum);
    BlockSchedules(frames, events);
  }
}
