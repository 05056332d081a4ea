/** The game's state machine on values. A `Snapshot` holds every field of the plugin
    object, and each transition of the plugin is a function from one snapshot to the
    next. The plugin class is proved to follow these functions step for step; the
    properties of the game are proved here, on the functions. Time is counted in samples.
    MIDI sent to the host is the snapshot's `output`, in order. */
module SimonGame {
  import opened SimonUtils
  import EP = ExtendedPlugin

  /** Seconds between two notes of the instructions, and before the first one. */
  const NoteInterval: nat := 1
  /** Seconds each note of the instructions is held. */
  const NoteDuration: nat := 1

  /** Every field of the plugin object, plus the MIDI it has sent so far. */
  datatype Snapshot = Snapshot(
    start: bool,
    status: Status,
    root: int,
    nbNotes: int,
    effectiveRoot: int,
    effectiveNbNotes: int,
    curNote: int,
    round: int,
    curTime: nat,
    lastTime: nat,
    sequence: seq<int>,
    instructionN: nat,
    playN: nat,
    output: seq<EP.MidiEvent>)

  /** The note sequence has the size of its buffer, `MaxRound`. */
  predicate Sized(s: Snapshot) {
    |s.sequence| == MaxRound
  }

  /** `n` copies of `v`. */
  function Repeat(v: int, n: nat): (r: seq<int>)
    ensures |r| == n && forall i :: 0 <= i < n ==> r[i] == v
  {
    if n == 0 then [] else Repeat(v, n - 1) + [v]
  }

  /** A sequence with no note at any position. */
  const Blank: seq<int> := Repeat(-1, MaxRound)

  /** The state of a freshly built plugin: the parameters' defaults, then `reset`. */
  const Initial: Snapshot :=
    Snapshot(false, Waiting, 60, 12, 60, 12, -1, 0, 0, 0, Blank, 0, 0, [])

  // ---------------------------------------------------------------------------
  // Session transitions.

  /** Clears the sequence and the cursors; the settings, the status and the clock stay. */
  function Reset(s: Snapshot): (r: Snapshot)
    ensures Sized(r) && forall i :: 0 <= i < MaxRound ==> r.sequence[i] == -1
    ensures r.curNote == -1 && r.round == 0 && r.instructionN == 0 && r.playN == 0
    ensures r.status == s.status && r.start == s.start && r.output == s.output
    ensures r.curTime == s.curTime && r.lastTime == s.lastTime
    ensures r == s.(sequence := r.sequence, curNote := r.curNote, round := r.round,
                    instructionN := r.instructionN, playN := r.playN)
  {
    s.(sequence := Blank, curNote := -1, round := 0, instructionN := 0, playN := 0)
  }

  /** A new game: cleared, waiting for the first round, the clock reference at now. */
  function NewGame(s: Snapshot): (r: Snapshot)
    ensures Sized(r) && forall i :: 0 <= i < MaxRound ==> r.sequence[i] == -1
    ensures r.curNote == -1 && r.round == 0 && r.instructionN == 0 && r.playN == 0
    ensures r.status == Starting && r.lastTime == r.curTime == s.curTime
    ensures r.start == s.start && r.output == s.output
    ensures r.root == s.root && r.nbNotes == s.nbNotes
    ensures r.effectiveRoot == s.effectiveRoot && r.effectiveNbNotes == s.effectiveNbNotes
  {
    Reset(s).(status := Starting, lastTime := s.curTime, round := 0)
  }

  /** Writes the note of the current round at its position, or ends the game when the
      buffer is full. Only the position `round` of the sequence can change. */
  function AddNote(s: Snapshot): (r: Snapshot)
    requires Sized(s)
    ensures Sized(r) && r.round == s.round
    ensures forall i :: 0 <= i < MaxRound && i != s.round ==> r.sequence[i] == s.sequence[i]
    ensures 0 <= s.round < MaxRound ==> r.sequence[s.round] == s.effectiveRoot + s.round && r.status == s.status
    ensures s.round >= MaxRound ==> r.status == GameOver && r.sequence == s.sequence
    ensures r.output == s.output && r.curNote == s.curNote
    ensures r.instructionN == s.instructionN && r.playN == s.playN && r.curTime == s.curTime
    ensures r == s.(sequence := r.sequence, status := r.status)
    ensures s.round < 0 ==> r == s
  {
    if s.round >= MaxRound then s.(status := GameOver)
    else if s.round >= 0 then s.(sequence := s.sequence[s.round := s.effectiveRoot + s.round])
    else s
  }

  /** A new round: one more note, both cursors back at the start, the instructions
      first. The note goes at the position the round had before it grew. */
  function NewRound(s: Snapshot): (r: Snapshot)
    requires Sized(s)
    ensures Sized(r)
    ensures r.instructionN == 0 && r.playN == 0 && r.round == s.round + 1
    ensures r.status == (if s.round >= MaxRound then GameOver else Instructions)
    ensures 0 <= s.round < MaxRound ==> r.sequence == s.sequence[s.round := s.effectiveRoot + s.round]
    ensures !(0 <= s.round < MaxRound) ==> r.sequence == s.sequence
    ensures r.lastTime == r.curTime == s.curTime
    ensures r.output == s.output && r.curNote == s.curNote && r.start == s.start
    ensures r.root == s.root && r.nbNotes == s.nbNotes
    ensures r.effectiveRoot == s.effectiveRoot && r.effectiveNbNotes == s.effectiveNbNotes
  {
    var added := AddNote(s.(status := Instructions, instructionN := 0, playN := 0));
    added.(lastTime := added.curTime, round := added.round + 1)
  }

  /** The next note of the instructions: once all are given, the player's turn;
      otherwise the note at the cursor is sounded on channel 0 at full velocity and the
      cursor moves on. */
  function NextNote(s: Snapshot, frame: nat): (r: Snapshot)
    requires Sized(s)
    ensures Sized(r) && r.sequence == s.sequence && r.round == s.round && r.playN == s.playN
    ensures s.instructionN >= s.round ==> r == s.(status := PlayingWait)
    ensures s.instructionN < s.round ==> r.status == s.status
    ensures s.instructionN < s.round && s.instructionN < MaxRound ==> r.curNote == s.sequence[s.instructionN]
    ensures MaxRound <= s.instructionN < s.round ==> r == s
    ensures r.output == s.output || r.output == s.output + [EP.NoteOnEvent(EP.ToByte(r.curNote), 127, 0, frame)]
    ensures r.output != s.output <==> s.instructionN < s.round && s.instructionN < MaxRound && r.curNote >= 0
    ensures r.instructionN == s.instructionN + (if r.output == s.output then 0 else 1)
    ensures s.instructionN <= s.round ==> r.instructionN <= r.round
    ensures r == s.(status := r.status, curNote := r.curNote, output := r.output, instructionN := r.instructionN)
  {
    if s.instructionN >= s.round then s.(status := PlayingWait)
    else if s.instructionN < MaxRound then
      var note := s.sequence[s.instructionN];
      if note >= 0 then
        s.(curNote := note,
           output := s.output + [EP.NoteOnEvent(EP.ToByte(note), 127, 0, frame)],
           instructionN := s.instructionN + 1)
      else s.(curNote := note)
    else s
  }

  /** Releases the sounding note of the instructions, if any, on channel 0. */
  function EndNote(s: Snapshot, frame: nat): (r: Snapshot)
    ensures s.curNote >= 0 ==>
      r.curNote == -1 && r.output == s.output + [EP.NoteOffEvent(EP.ToByte(s.curNote), 0, frame)]
    ensures s.curNote < 0 ==> r == s
    ensures r == s.(curNote := r.curNote, output := r.output)
  {
    if s.curNote >= 0 then
      s.(output := s.output + [EP.NoteOffEvent(EP.ToByte(s.curNote), 0, frame)], curNote := -1)
    else s
  }

  // ---------------------------------------------------------------------------
  // The player's notes.

  /** A note played during the player's turn is passed through, after releasing the
      one still sounding; it is checked against the sequence at the player's cursor,
      and the turn is over once the cursor reaches the round. Outside the player's turn
      the note is ignored. */
  function NoteOn(s: Snapshot, note: EP.Byte, velocity: EP.Byte, channel: EP.Byte, frame: nat): (r: Snapshot)
    requires Sized(s)
    ensures Sized(r)
    ensures !IsPlaying(s.status) ==> r == s
    ensures IsPlaying(s.status) ==>
      && r.curNote == note && r.playN == s.playN + 1
      && r.output == s.output
           + (if s.curNote >= 0 then [EP.NoteOffEvent(EP.ToByte(s.curNote), channel, frame)] else [])
           + [EP.NoteOnEvent(note, velocity, channel, frame)]
      && (r.status == PlayingOver <==> r.playN >= s.round)
      && (r.playN < s.round ==>
            (r.status == PlayingCorrect <==> s.playN < MaxRound && note == s.sequence[s.playN])
            && (r.status == PlayingIncorrect <==> !(s.playN < MaxRound && note == s.sequence[s.playN])))
      && r == s.(curNote := r.curNote, playN := r.playN, output := r.output, status := r.status)
  {
    if IsPlaying(s.status) then
      var released := if s.curNote >= 0 then s.output + [EP.NoteOffEvent(EP.ToByte(s.curNote), channel, frame)]
                      else s.output;
      var verdict := if s.playN < MaxRound && note == s.sequence[s.playN] then PlayingCorrect
                     else PlayingIncorrect;
      var played := s.playN + 1;
      s.(output := released + [EP.NoteOnEvent(note, velocity, channel, frame)],
         curNote := note,
         status := if played >= s.round then PlayingOver else verdict,
         playN := played)
    else s
  }

  /** `NoteOn` during the player's turn, field by field. */
  lemma NoteOnPlayed(s: Snapshot, note: EP.Byte, velocity: EP.Byte, channel: EP.Byte, frame: nat)
    requires Sized(s) && IsPlaying(s.status)
    ensures NoteOn(s, note, velocity, channel, frame)
         == s.(output := (if s.curNote >= 0 then s.output + [EP.NoteOffEvent(EP.ToByte(s.curNote), channel, frame)]
                          else s.output) + [EP.NoteOnEvent(note, velocity, channel, frame)],
               curNote := note,
               status := if s.playN + 1 >= s.round then PlayingOver
                         else if s.playN < MaxRound && note == s.sequence[s.playN] then PlayingCorrect
                         else PlayingIncorrect,
               playN := s.playN + 1)
  {
  }

  /** A note released during the player's turn, or once the turn is over, is passed
      through; the player's turn goes on, or the next round starts. Otherwise the
      release is ignored. */
  function NoteOff(s: Snapshot, note: EP.Byte, channel: EP.Byte, frame: nat): (r: Snapshot)
    requires Sized(s)
    ensures Sized(r)
    ensures !(IsPlaying(s.status) || s.status == PlayingOver) ==> r == s
    ensures IsPlaying(s.status) || s.status == PlayingOver ==>
      r.curNote == -1 && r.output == s.output + [EP.NoteOffEvent(note, channel, frame)]
    ensures IsPlaying(s.status) ==>
      r == s.(status := PlayingWait, curNote := -1, output := r.output)
    ensures s.status == PlayingOver ==>
      && r.round == s.round + 1 && r.instructionN == 0 && r.playN == 0
      && r.status == (if s.round >= MaxRound then GameOver else Instructions)
    ensures s.status == PlayingOver ==>
      r == NewRound(s.(output := s.output + [EP.NoteOffEvent(note, channel, frame)], curNote := -1))
  {
    if IsPlaying(s.status) || s.status == PlayingOver then
      var released := s.(output := s.output + [EP.NoteOffEvent(note, channel, frame)], curNote := -1);
      if IsPlaying(s.status) then released.(status := PlayingWait)
      else NewRound(released)
    else s
  }

  // ---------------------------------------------------------------------------
  // Parameters set by the host.

  /** A parameter set by the host. Start is edge-triggered: a new game begins only when
      start goes from off to on while no game is running; start takes the new value in
      every case. Status and round are output parameters and are not set this way. */
  function SetParameter(s: Snapshot, index: nat, value: int): (r: Snapshot)
    ensures index == ParamStart ==> r.start == (value != 0)
    ensures index == ParamStart && !s.start && value != 0 && !IsRunning(s.status) ==>
      r == NewGame(s).(start := true)
    ensures index == ParamStart && !(!s.start && value != 0 && !IsRunning(s.status)) ==>
      r == s.(start := value != 0)
    ensures index == ParamRoot ==> r == s.(root := value)
    ensures index == ParamNbNotes ==> r == s.(nbNotes := value)
    ensures index == ParamEffectiveRoot ==> r == s.(effectiveRoot := value)
    ensures index == ParamEffectiveNbNotes ==> r == s.(effectiveNbNotes := value)
    ensures index == ParamCurNote ==> r == s.(curNote := value)
    ensures index !in {ParamStart, ParamRoot, ParamNbNotes, ParamEffectiveRoot, ParamEffectiveNbNotes, ParamCurNote} ==>
      r == s
  {
    if index == ParamStart then
      var started := if !s.start && value != 0 && !IsRunning(s.status) then NewGame(s) else s;
      started.(start := value != 0)
    else if index == ParamRoot then s.(root := value)
    else if index == ParamNbNotes then s.(nbNotes := value)
    else if index == ParamEffectiveRoot then s.(effectiveRoot := value)
    else if index == ParamEffectiveNbNotes then s.(effectiveNbNotes := value)
    else if index == ParamCurNote then s.(curNote := value)
    else s
  }

  // ---------------------------------------------------------------------------
  // Block processing.

  /** Between games the effective settings follow the settings, with the number of notes
      cut so that the range does not run past the last MIDI key. During a game they stay. */
  function Sync(s: Snapshot): (r: Snapshot)
    ensures IsRunning(s.status) ==> r == s
    ensures !IsRunning(s.status) ==>
      && r.effectiveRoot == s.root
      && r.effectiveNbNotes == EP.Min(s.nbNotes, MaxNbNotes - s.root)
      && r == s.(effectiveRoot := r.effectiveRoot, effectiveNbNotes := r.effectiveNbNotes)
    ensures !IsRunning(s.status) && 0 <= s.root <= 127 && 1 <= s.nbNotes ==>
      1 <= r.effectiveNbNotes && r.effectiveRoot + r.effectiveNbNotes <= MaxNbNotes
  {
    if !IsRunning(s.status) then
      var root := s.root;
      var maxNotes := MaxNbNotes - root;
      s.(effectiveRoot := root, effectiveNbNotes := if s.nbNotes > maxNotes then maxNotes else s.nbNotes)
    else s
  }

  /** How many samples the timer lets pass, since the time reference, before its next
      action in the starting pause and the instructions: a note is held for
      `NoteDuration` seconds, the pause before a round and before each note lasts
      `NoteInterval` seconds. */
  function Delay(s: Snapshot, sampleRate: nat): nat {
    if s.status == Instructions && s.curNote >= 0 then NoteDuration * sampleRate else NoteInterval * sampleRate
  }

  /** One sample of the timer, at `frame` within the block. At most one action fires:
      the first round after the starting pause, or the release or the start of a note of
      the instructions; each resets the time reference. Other statuses only let time
      pass. When the action fires is stated by `TickTimer`. */
  function Tick(s: Snapshot, frame: nat, sampleRate: nat): (r: Snapshot)
    requires Sized(s)
    ensures Sized(r) && r.curTime == s.curTime + 1
    ensures r.lastTime == s.lastTime || r.lastTime == r.curTime
    ensures s.output <= r.output && |r.output| <= |s.output| + 1
    ensures s.round <= r.round <= s.round + 1
    ensures !(s.status == Starting || s.status == Instructions) ==> r == s.(curTime := s.curTime + 1)
  {
    var now := s.curTime + 1;
    var timed := s.(curTime := now);
    var elapsed := now - s.lastTime;
    if s.status == Starting then
      if elapsed >= NoteInterval * sampleRate then NewRound(timed) else timed
    else if s.status == Instructions then
      if s.curNote >= 0 then
        if elapsed >= NoteDuration * sampleRate then EndNote(timed.(lastTime := now), frame) else timed
      else
        if elapsed >= NoteInterval * sampleRate then NextNote(timed.(lastTime := now), frame) else timed
    else timed
  }

  /** The timer of one sample. In the starting pause and the instructions nothing
      happens before the time since the reference reaches the delay, only the clock
      moves on; once it does, the action fires and the time reference is reset: after
      the pause the first round starts, a held note is released on channel 0, and
      after the gap the next note is given. */
  lemma TickTimer(s: Snapshot, frame: nat, sampleRate: nat)
    requires Sized(s)
    ensures var r, elapsed := Tick(s, frame, sampleRate), s.curTime + 1 - s.lastTime;
      (s.status == Starting || s.status == Instructions) && elapsed < Delay(s, sampleRate) ==>
        r == s.(curTime := s.curTime + 1)
    ensures var r, elapsed := Tick(s, frame, sampleRate), s.curTime + 1 - s.lastTime;
      s.status == Starting ==> (r.round == s.round + 1 <==> elapsed >= Delay(s, sampleRate))
    ensures var r, elapsed := Tick(s, frame, sampleRate), s.curTime + 1 - s.lastTime;
      s.status == Starting && elapsed >= Delay(s, sampleRate) ==>
        r == NewRound(s.(curTime := s.curTime + 1)) && r.lastTime == r.curTime
    ensures var r, elapsed := Tick(s, frame, sampleRate), s.curTime + 1 - s.lastTime;
      s.status == Instructions && s.curNote >= 0 && elapsed >= Delay(s, sampleRate) ==>
        && r.curNote == -1 && r.lastTime == r.curTime
        && r.output == s.output + [EP.NoteOffEvent(EP.ToByte(s.curNote), 0, frame)]
        && r == s.(curTime := r.curTime, lastTime := r.lastTime, curNote := -1, output := r.output)
    ensures var r, elapsed := Tick(s, frame, sampleRate), s.curTime + 1 - s.lastTime;
      s.status == Instructions && s.curNote < 0 && elapsed >= Delay(s, sampleRate) ==>
        r == NextNote(s.(curTime := s.curTime + 1, lastTime := s.curTime + 1), frame) && r.lastTime == r.curTime
  {
  }

  /** The first `n` samples of a block starting at `frame`. */
  function Ticks(s: Snapshot, frame: nat, n: nat, sampleRate: nat): (r: Snapshot)
    requires Sized(s)
    ensures Sized(r) && r.curTime == s.curTime + n
    ensures s.output <= r.output && s.round <= r.round
    decreases n
  {
    if n == 0 then s else Tick(Ticks(s, frame, n - 1, sampleRate), frame + n - 1, sampleRate)
  }

  /** One more sample of a block. */
  lemma TicksNext(s: Snapshot, frame: nat, n: nat, sampleRate: nat)
    requires Sized(s)
    ensures Ticks(s, frame, n + 1, sampleRate) == Tick(Ticks(s, frame, n, sampleRate), frame + n, sampleRate)
  {
  }

  /** `process` on a chunk of `nbSamples` samples starting at `frame`: the settings are
      synced first, then the timer runs sample by sample (see `ProcessSyncsFirst`). */
  function Process(s: Snapshot, nbSamples: nat, frame: nat, sampleRate: nat): (r: Snapshot)
    requires Sized(s)
    ensures Sized(r) && r.curTime == s.curTime + nbSamples && s.output <= r.output
  {
    Ticks(Sync(s), frame, nbSamples, sampleRate)
  }

  /** The game overrides the note hooks only; sustain and pitch bend do nothing. */
  function Dispatch(s: Snapshot, c: EP.Callback): (r: Snapshot)
    requires Sized(s)
    ensures Sized(r)
    ensures c.NoteOn? ==> r == NoteOn(s, c.note, c.velocity, c.channel, c.frame)
    ensures c.NoteOff? ==> r == NoteOff(s, c.note, c.channel, c.frame)
    ensures !(c.NoteOn? || c.NoteOff?) ==> r == s
  {
    match c
    case NoteOn(note, velocity, channel, frame) => NoteOn(s, note, velocity, channel, frame)
    case NoteOff(note, channel, frame) => NoteOff(s, note, channel, frame)
    case _ => s
  }

  /** An incoming MIDI event, decoded and dispatched to the hooks. Only the player's
      turn, and the release that ends it, react to input: at other times, and for
      events the decoder drops, nothing changes. Input never touches the settings or
      the clock, and never takes back sent MIDI. */
  function HandleMidiEvent(s: Snapshot, ev: EP.MidiEvent): (r: Snapshot)
    requires Sized(s)
    ensures Sized(r)
    ensures !(IsPlaying(s.status) || s.status == PlayingOver) ==> r == s
    ensures (ev.size <= 1 || ev.size > 4) ==> r == s
    ensures s.output <= r.output
    ensures r.start == s.start && r.root == s.root && r.nbNotes == s.nbNotes
    ensures r.effectiveRoot == s.effectiveRoot && r.effectiveNbNotes == s.effectiveNbNotes
    ensures r.curTime == s.curTime
  {
    Dispatch(s, EP.ProcessMidiEventCorrected(ev))
  }

  /** One call of the block loop on the game: an event leaves the clock alone, a chunk
      advances it by its length; neither takes back sent MIDI. */
  function Apply(s: Snapshot, c: EP.Call, sampleRate: nat): (r: Snapshot)
    requires Sized(s)
    ensures Sized(r)
    ensures s.output <= r.output
    ensures c.Midi? ==> r.curTime == s.curTime
    ensures c.Process? ==> r.curTime == s.curTime + c.nbSamples
  {
    match c
    case Midi(ev) => HandleMidiEvent(s, ev)
    case Process(nbSamples, frame) => Process(s, nbSamples, frame, sampleRate)
  }

  /** The calls of a block, in order; no call takes back what was sent. */
  function Replay(s: Snapshot, calls: seq<EP.Call>, sampleRate: nat): (r: Snapshot)
    requires Sized(s)
    ensures Sized(r)
    ensures s.output <= r.output
    decreases |calls|
  {
    if calls == [] then s
    else Apply(Replay(s, calls[..|calls| - 1], sampleRate), calls[|calls| - 1], sampleRate)
  }

  /** One more call of a block. */
  lemma ReplayNext(s: Snapshot, calls: seq<EP.Call>, i: nat, sampleRate: nat)
    requires Sized(s) && i < |calls|
    ensures Replay(s, calls[..i + 1], sampleRate) == Apply(Replay(s, calls[..i], sampleRate), calls[i], sampleRate)
  {
    assert calls[..i + 1][..i] == calls[..i];
  }

  // ---------------------------------------------------------------------------
  // The invariant of a session.

  /** What holds of the plugin between any two calls from the host: the settings lie in
      their declared ranges; the cursors never pass the round; a running game holds at
      most `MaxRound` rounds; the notes of the rounds played so far are written and the
      rest of the sequence is blank; during the instructions the player has not started;
      during the player's turn some note is still to be played; the time reference is not
      in the future. */
  predicate Consistent(s: Snapshot) {
    && Sized(s)
    && 0 <= s.root <= 127 && 1 <= s.nbNotes <= MaxNbNotes
    && 0 <= s.effectiveRoot <= 127 && 1 <= s.effectiveNbNotes <= MaxNbNotes
    && -1 <= s.curNote <= 255
    && 0 <= s.round <= MaxRound + 1
    && (IsRunning(s.status) ==> s.round <= MaxRound)
    && s.instructionN <= s.round && s.playN <= s.round
    && (s.status == Instructions ==> s.playN == 0 && s.round >= 1)
    && (IsPlaying(s.status) ==> s.playN < s.round)
    && (forall i :: 0 <= i < MaxRound ==>
          (i < s.round ==> 0 <= s.sequence[i] <= 254) && (i >= s.round ==> s.sequence[i] == -1))
    && s.lastTime <= s.curTime
  }

  lemma InitialConsistent()
    ensures Consistent(Initial)
  {
  }

  lemma NewGameConsistent(s: Snapshot)
    requires Consistent(s)
    ensures Consistent(NewGame(s))
  {
  }

  /** A new round keeps the invariant, from any status in which the game starts one. */
  lemma NewRoundConsistent(s: Snapshot)
    requires Consistent(s) && IsRunning(s.status)
    ensures Consistent(NewRound(s))
  {
    var r := NewRound(s);
    forall i | 0 <= i < MaxRound
      ensures (i < r.round ==> 0 <= r.sequence[i] <= 254) && (i >= r.round ==> r.sequence[i] == -1)
    {
      if i != s.round {
        assert r.sequence[i] == s.sequence[i];
      }
    }
  }

  lemma SetParameterConsistent(s: Snapshot, index: nat, value: int)
    requires Consistent(s) && InParamRange(index, value)
    ensures Consistent(SetParameter(s, index, value))
  {
    if index == ParamStart && !s.start && value != 0 && !IsRunning(s.status) {
      NewGameConsistent(s);
    }
  }

  lemma NoteOnConsistent(s: Snapshot, note: EP.Byte, velocity: EP.Byte, channel: EP.Byte, frame: nat)
    requires Consistent(s)
    ensures Consistent(NoteOn(s, note, velocity, channel, frame))
  {
  }

  lemma NoteOffConsistent(s: Snapshot, note: EP.Byte, channel: EP.Byte, frame: nat)
    requires Consistent(s)
    ensures Consistent(NoteOff(s, note, channel, frame))
  {
    if s.status == PlayingOver {
      NewRoundConsistent(s.(output := s.output + [EP.NoteOffEvent(note, channel, frame)], curNote := -1));
    }
  }

  lemma SyncConsistent(s: Snapshot)
    requires Consistent(s)
    ensures Consistent(Sync(s))
  {
  }

  lemma TickConsistent(s: Snapshot, frame: nat, sampleRate: nat)
    requires Consistent(s)
    ensures Consistent(Tick(s, frame, sampleRate))
  {
    var timed := s.(curTime := s.curTime + 1);
    assert Consistent(timed);
    if s.status == Starting {
      NewRoundConsistent(timed);
    }
  }

  lemma {:induction false} TicksConsistent(s: Snapshot, frame: nat, n: nat, sampleRate: nat)
    requires Consistent(s)
    ensures Consistent(Ticks(s, frame, n, sampleRate))
    decreases n
  {
    if n > 0 {
      TicksConsistent(s, frame, n - 1, sampleRate);
      TickConsistent(Ticks(s, frame, n - 1, sampleRate), frame + n - 1, sampleRate);
    }
  }

  lemma ProcessConsistent(s: Snapshot, nbSamples: nat, frame: nat, sampleRate: nat)
    requires Consistent(s)
    ensures Consistent(Process(s, nbSamples, frame, sampleRate))
  {
    SyncConsistent(s);
    TicksConsistent(Sync(s), frame, nbSamples, sampleRate);
  }

  lemma HandleMidiEventConsistent(s: Snapshot, ev: EP.MidiEvent)
    requires Consistent(s)
    ensures Consistent(HandleMidiEvent(s, ev))
  {
    match EP.ProcessMidiEventCorrected(ev)
    case NoteOn(note, velocity, channel, frame) => NoteOnConsistent(s, note, velocity, channel, frame);
    case NoteOff(note, channel, frame) => NoteOffConsistent(s, note, channel, frame);
    case _ =>
  }

  /** Whatever blocks the host runs, the invariant holds after each of them. */
  lemma {:induction false} ReplayConsistent(s: Snapshot, calls: seq<EP.Call>, sampleRate: nat)
    requires Consistent(s)
    ensures Consistent(Replay(s, calls, sampleRate))
    decreases |calls|
  {
    if calls != [] {
      var before := Replay(s, calls[..|calls| - 1], sampleRate);
      ReplayConsistent(s, calls[..|calls| - 1], sampleRate);
      match calls[|calls| - 1]
      case Midi(ev) => HandleMidiEventConsistent(before, ev);
      case Process(n, frame) => ProcessConsistent(before, n, frame, sampleRate);
    }
  }

  // ---------------------------------------------------------------------------
  // Properties of the session.

  /** During the instructions the note at the cursor is always written, so the
      instructions never stall: each note start sounds a note and moves the cursor on. */
  lemma InstructionsNeverStall(s: Snapshot, frame: nat)
    requires Consistent(s) && s.status == Instructions && s.instructionN < s.round
    ensures NextNote(s, frame).curNote >= 0
    ensures NextNote(s, frame).instructionN == s.instructionN + 1
    ensures |NextNote(s, frame).output| == |s.output| + 1
  {
  }

  /** Outside the starting pause and the instructions, a block only lets time pass. */
  lemma {:induction false} TicksIdle(s: Snapshot, frame: nat, n: nat, sampleRate: nat)
    requires Sized(s) && !(s.status == Starting || s.status == Instructions)
    ensures Ticks(s, frame, n, sampleRate) == s.(curTime := s.curTime + n)
    decreases n
  {
    if n > 0 {
      TicksIdle(s, frame, n - 1, sampleRate);
    }
  }

  /** In the starting pause and the instructions nothing happens before the delay is
      up: the block only lets time pass. */
  lemma {:induction false} TicksWait(s: Snapshot, frame: nat, n: nat, sampleRate: nat)
    requires Sized(s) && (s.status == Starting || s.status == Instructions)
    requires s.curTime + n - s.lastTime < Delay(s, sampleRate)
    ensures Ticks(s, frame, n, sampleRate) == s.(curTime := s.curTime + n)
    decreases n
  {
    if n > 0 {
      TicksWait(s, frame, n - 1, sampleRate);
      TickTimer(s.(curTime := s.curTime + n - 1), frame + n - 1, sampleRate);
    }
  }

  /** While the delay is not up, the samples only let time pass, so the next sample
      sees the state as it was, with the clock moved on. */
  lemma TicksThenTick(s: Snapshot, frame: nat, n: nat, sampleRate: nat)
    requires Sized(s) && (s.status == Starting || s.status == Instructions)
    requires s.curTime + n - s.lastTime < Delay(s, sampleRate)
    ensures Ticks(s, frame, n + 1, sampleRate) == Tick(s.(curTime := s.curTime + n), frame + n, sampleRate)
  {
    TicksWait(s, frame, n, sampleRate);
    TickTimer(s.(curTime := s.curTime + n), frame + n, sampleRate);
  }

  /** The starting pause lasts `NoteInterval` seconds to the sample: then the first
      round starts. */
  lemma PauseThenRound(s: Snapshot, frame: nat, sampleRate: nat)
    requires Sized(s) && s.status == Starting && s.lastTime == s.curTime && sampleRate > 0
    ensures Ticks(s, frame, NoteInterval * sampleRate, sampleRate)
         == NewRound(s.(curTime := s.curTime + NoteInterval * sampleRate))
  {
    var m := NoteInterval * sampleRate - 1;
    var last := s.(curTime := s.curTime + m);
    TicksThenTick(s, frame, m, sampleRate);
    TickTimer(last, frame + m, sampleRate);
    assert last.(curTime := last.curTime + 1) == s.(curTime := s.curTime + NoteInterval * sampleRate);
  }

  /** A note of the instructions is held for `NoteDuration` seconds to the sample, then
      released on channel 0 in the block's last sample; nothing else changes. */
  lemma NoteHeldThenReleased(s: Snapshot, frame: nat, sampleRate: nat)
    requires Sized(s) && s.status == Instructions && s.curNote >= 0
    requires s.lastTime == s.curTime && sampleRate > 0
    ensures var d := NoteDuration * sampleRate;
      Ticks(s, frame, d, sampleRate)
        == s.(curTime := s.curTime + d, lastTime := s.curTime + d, curNote := -1,
              output := s.output + [EP.NoteOffEvent(EP.ToByte(s.curNote), 0, frame + d - 1)])
  {
    var m := NoteDuration * sampleRate - 1;
    var last := s.(curTime := s.curTime + m);
    TicksThenTick(s, frame, m, sampleRate);
    TickTimer(last, frame + m, sampleRate);
    assert frame + m == frame + NoteDuration * sampleRate - 1;
  }

  /** Between two notes of the instructions the timer waits `NoteInterval` seconds to
      the sample, then gives the next note, or hands over to the player. */
  lemma GapThenNextNote(s: Snapshot, frame: nat, sampleRate: nat)
    requires Sized(s) && s.status == Instructions && s.curNote < 0
    requires s.lastTime == s.curTime && sampleRate > 0
    ensures var d := NoteInterval * sampleRate;
      Ticks(s, frame, d, sampleRate)
        == NextNote(s.(curTime := s.curTime + d, lastTime := s.curTime + d), frame + d - 1)
  {
    var m := NoteInterval * sampleRate - 1;
    var last := s.(curTime := s.curTime + m);
    TicksThenTick(s, frame, m, sampleRate);
    TickTimer(last, frame + m, sampleRate);
    assert last.(curTime := last.curTime + 1, lastTime := last.curTime + 1)
        == s.(curTime := s.curTime + NoteInterval * sampleRate, lastTime := s.curTime + NoteInterval * sampleRate);
    assert frame + m == frame + NoteInterval * sampleRate - 1;
  }

  /** Between games the settings are copied to the effective settings before any
      sample, and the block then only lets time pass; during a game the settings are
      left alone and the timer runs on the state as it was. */
  lemma ProcessSyncsFirst(s: Snapshot, nbSamples: nat, frame: nat, sampleRate: nat)
    requires Sized(s)
    ensures !IsRunning(s.status) ==>
      Process(s, nbSamples, frame, sampleRate) == Sync(s).(curTime := s.curTime + nbSamples)
    ensures IsRunning(s.status) ==> Process(s, nbSamples, frame, sampleRate) == Ticks(s, frame, nbSamples, sampleRate)
  {
    if !IsRunning(s.status) {
      TicksIdle(Sync(s), frame, nbSamples, sampleRate);
    }
  }

  /** Between games a block applies the settings to the effective settings, keeps the
      effective range within the MIDI keys, and otherwise only lets time pass. */
  lemma ProcessWhileIdle(s: Snapshot, nbSamples: nat, frame: nat, sampleRate: nat)
    requires Consistent(s) && !IsRunning(s.status)
    ensures Process(s, nbSamples, frame, sampleRate) == Sync(s).(curTime := s.curTime + nbSamples)
    ensures Process(s, nbSamples, frame, sampleRate).effectiveRoot == s.root
    ensures 1 <= Process(s, nbSamples, frame, sampleRate).effectiveNbNotes
    ensures Process(s, nbSamples, frame, sampleRate).effectiveRoot
            + Process(s, nbSamples, frame, sampleRate).effectiveNbNotes <= MaxNbNotes
  {
    TicksIdle(Sync(s), frame, nbSamples, sampleRate);
  }

  /** The game's clock advances by exactly the frames the chunks cover. */
  lemma {:induction false} ReplayClock(s: Snapshot, calls: seq<EP.Call>, sampleRate: nat)
    requires Sized(s)
    ensures Replay(s, calls, sampleRate).curTime == s.curTime + EP.Covered(EP.Chunks(calls))
    decreases |calls|
  {
    if calls != [] {
      var before, last := calls[..|calls| - 1], calls[|calls| - 1];
      ReplayClock(s, before, sampleRate);
      var chunks := EP.Chunks(before) + (if last.Process? then [last] else []);
      if last.Process? {
        assert chunks[..|chunks| - 1] == EP.Chunks(before);
      } else {
        assert chunks == EP.Chunks(before);
      }
    }
  }

  /** A host block of `frames` frames advances the game's clock by `frames` samples,
      whatever MIDI arrives with it. */
  lemma BlockAdvancesClock(s: Snapshot, frames: nat, events: seq<EP.MidiEvent>, sampleRate: nat)
    requires Sized(s)
    ensures Replay(s, EP.Rest(frames, events, 0, 0), sampleRate).curTime == s.curTime + frames
  {
    EP.BlockSchedules(frames, events);
    ReplayClock(s, EP.Rest(frames, events, 0, 0), sampleRate);
  }

  /** The game ignores sustain, so reading Control Change from three-byte events as well
      changes nothing in the game. */
  lemma DecoderFixUnseen(s: Snapshot, ev: EP.MidiEvent)
    requires Sized(s)
    ensures Dispatch(s, EP.ProcessMidiEvent(ev)) == HandleMidiEvent(s, ev)
  {
    EP.CorrectionOnlyAddsSustain(ev);
  }

  // ---------------------------------------------------------------------------
  // A first round, played out at one sample per second.

  /** Start pressed on a fresh plugin: a game starts. Four samples later the first note
      (the effective root, 60) has been sounded and released, and it is the player's turn. */
  lemma FirstInstructions(at: nat) returns (s: Snapshot)
    ensures s == Process(SetParameter(Initial, ParamStart, 1), 4, at, 1)
    ensures s.status == PlayingWait && s.round == 1 && s.sequence[0] == 60
    ensures s.curNote == -1 && s.playN == 0 && s.effectiveRoot == 60
    ensures s.output == [EP.NoteOnEvent(60, 127, 0, at + 1), EP.NoteOffEvent(60, 0, at + 2)]
  {
    var s1 := SetParameter(Initial, ParamStart, 1);
    assert s1.status == Starting && s1.curTime == 0 && s1.lastTime == 0 && s1.round == 0;
    assert Sync(s1) == s1;
    var t1 := Tick(s1, at, 1);
    assert t1.status == Instructions && t1.round == 1 && t1.sequence[0] == 60;
    assert t1.curTime == 1 && t1.lastTime == 1 && t1.curNote == -1 && t1.instructionN == 0;
    var t2 := Tick(t1, at + 1, 1);
    assert t2.curNote == 60 && t2.instructionN == 1 && t2.lastTime == 2;
    assert t2.output == [EP.NoteOnEvent(60, 127, 0, at + 1)];
    var t3 := Tick(t2, at + 2, 1);
    assert t3.curNote == -1 && t3.lastTime == 3 && t3.status == Instructions;
    assert t3.output == [EP.NoteOnEvent(60, 127, 0, at + 1), EP.NoteOffEvent(60, 0, at + 2)];
    var t4 := Tick(t3, at + 3, 1);
    assert t4.status == PlayingWait;
    assert Ticks(s1, at, 4, 1) == t4;
    s := t4;
  }

  /** The last note of the player's turn, played right and with no note sounding: it is
      sounded, the cursor reaches the round and the turn is over; nothing else changes. */
  lemma LastRightAnswer(w: Snapshot, note: EP.Byte, velocity: EP.Byte, channel: EP.Channel, frame: nat)
    requires Sized(w) && IsPlaying(w.status) && w.curNote == -1
    requires w.playN + 1 == w.round <= MaxRound && w.sequence[w.playN] == note
    ensures HandleMidiEvent(w, EP.NoteOnEvent(note, velocity, channel, frame))
         == w.(status := PlayingOver, curNote := note, playN := w.round,
               output := w.output + [EP.NoteOnEvent(note, velocity, channel, frame)])
  {
    var ev := EP.NoteOnEvent(note, velocity, channel, frame);
    EP.DecodeNoteOnEvent(note, velocity, channel, frame);
    EP.CorrectionOnlyAddsSustain(ev);
  }

  /** Releasing the note once the turn is over starts the next round: the instructions
      begin again with one more note, the effective root raised by the round number. */
  lemma ReleaseStartsRound(w: Snapshot, note: EP.Byte, channel: EP.Channel, frame: nat)
    requires Sized(w) && w.status == PlayingOver && 0 <= w.round < MaxRound
    ensures var r := HandleMidiEvent(w, EP.NoteOffEvent(note, channel, frame));
      && r.status == Instructions && r.round == w.round + 1
      && r.instructionN == 0 && r.playN == 0 && r.curNote == -1
      && r.sequence == w.sequence[w.round := w.effectiveRoot + w.round]
      && r.output == w.output + [EP.NoteOffEvent(note, channel, frame)]
  {
    var ev := EP.NoteOffEvent(note, channel, frame);
    EP.DecodeNoteOffEvent(note, channel, frame);
    EP.CorrectionOnlyAddsSustain(ev);
  }

  /** The last note of a round answered right and released: the next round starts, with
      its note written after the ones already played, and the answer and its release are
      passed through. */
  lemma LastAnswerReleased(w: Snapshot, note: EP.Byte, velocity: EP.Byte, channel: EP.Channel,
                           answerAt: nat, releaseAt: nat)
    requires Sized(w) && IsPlaying(w.status) && w.curNote == -1
    requires w.playN + 1 == w.round < MaxRound && w.sequence[w.playN] == note
    ensures var on, off := EP.NoteOnEvent(note, velocity, channel, answerAt), EP.NoteOffEvent(note, channel, releaseAt);
      var r := HandleMidiEvent(HandleMidiEvent(w, on), off);
      && r.status == Instructions && r.round == w.round + 1
      && r.instructionN == 0 && r.playN == 0 && r.curNote == -1
      && r.sequence == w.sequence[w.round := w.effectiveRoot + w.round]
      && r.output == w.output + [on] + [off]
  {
    LastRightAnswer(w, note, velocity, channel, answerAt);
    var s := HandleMidiEvent(w, EP.NoteOnEvent(note, velocity, channel, answerAt));
    ReleaseStartsRound(s, note, channel, releaseAt);
  }

  /** The whole first round from a fresh plugin: whenever the player answers 60, at any
      velocity and on any channel, and then releases it, the second round starts with 61
      added, and the plugin has sent out the shown note and the answer. */
  lemma FirstRound(at: nat, velocity: EP.Byte, channel: EP.Channel, answerAt: nat, releaseAt: nat)
    ensures var w := Process(SetParameter(Initial, ParamStart, 1), 4, at, 1);
      var s := HandleMidiEvent(HandleMidiEvent(w, EP.NoteOnEvent(60, velocity, channel, answerAt)),
                               EP.NoteOffEvent(60, channel, releaseAt));
      && s.status == Instructions && s.round == 2
      && s.sequence[0] == 60 && s.sequence[1] == 61
      && s.output == [EP.NoteOnEvent(60, 127, 0, at + 1), EP.NoteOffEvent(60, 0, at + 2),
                      EP.NoteOnEvent(60, velocity, channel, answerAt), EP.NoteOffEvent(60, channel, releaseAt)]
  {
    var w := FirstInstructions(at);
    LastAnswerReleased(w, 60, velocity, channel, answerAt, releaseAt);
    AppendTwo(w.output, EP.NoteOnEvent(60, velocity, channel, answerAt), EP.NoteOffEvent(60, channel, releaseAt));
  }

  lemma AppendTwo<T>(xs: seq<T>, a: T, b: T)
    requires |xs| == 2
    ensures xs + [a] + [b] == [xs[0], xs[1], a, b]
  {
  }
}
