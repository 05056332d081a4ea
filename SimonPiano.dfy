/** The game plugin as an object. Its fields are those of the plugin, the note sequence
    is a fixed-size array written in place, and the MIDI it sends is a ghost sequence.
    Every method is proved to move the object's `State()` exactly as the matching
    transition of `SimonGame` moves a snapshot; the game's properties are proved there. */
module SimonPiano {
  import opened SimonUtils
  import EP = ExtendedPlugin
  import SimonGame

  class SimonPiano {
    var start: bool
    var status: Status
    var root: int
    var nbNotes: int
    var effectiveRoot: int
    var effectiveNbNotes: int
    var curNote: int
    var round: int
    /** The clock, in samples since the plugin was built. */
    var curTime: nat
    /** The clock when the last timed action fired. */
    var lastTime: nat
    const sequence: array<int>
    var instructionN: nat
    var playN: nat
    /** The MIDI events written to the host so far, in order. */
    ghost var output: seq<EP.MidiEvent>

    /** The object's fields as a snapshot. */
    ghost function State(): SimonGame.Snapshot
      reads this, sequence
    {
      SimonGame.Snapshot(start, status, root, nbNotes, effectiveRoot, effectiveNbNotes, curNote,
                         round, curTime, lastTime, sequence[..], instructionN, playN, output)
    }

    ghost predicate Valid()
      reads this
    {
      sequence.Length == MaxRound
    }

    /** The parameters' defaults, then `reset`. */
    constructor ()
      ensures Valid() && fresh(sequence)
      ensures State() == SimonGame.Initial
    {
      start := false;
      status := Waiting;
      root := 60;
      nbNotes := 12;
      effectiveRoot := 60;
      effectiveNbNotes := 12;
      curNote := -1;
      round := 0;
      curTime := 0;
      lastTime := 0;
      sequence := new int[MaxRound];
      instructionN := 0;
      playN := 0;
      output := [];
      new;
      Reset();
    }

    // -------------------------------------------------------------------------
    // Output to the host.

    /** Writes a Note On event to the host. */
    method SendNoteOn(note: EP.Byte, velocity: EP.Byte, channel: EP.Byte, frame: nat)
      modifies this
      ensures State() == old(State()).(output := old(output) + [EP.NoteOnEvent(note, velocity, channel, frame)])
    {
      output := output + [EP.NoteOnEvent(note, velocity, channel, frame)];
    }

    /** Writes a Note Off event to the host. */
    method SendNoteOff(note: EP.Byte, channel: EP.Byte, frame: nat)
      modifies this
      ensures State() == old(State()).(output := old(output) + [EP.NoteOffEvent(note, channel, frame)])
    {
      output := output + [EP.NoteOffEvent(note, channel, frame)];
    }

    // -------------------------------------------------------------------------
    // Parameters and sessions. `setParameterValue`, `newGame` and `reset` call one
    // another; the decreases clauses order them Start, new game, reset, plain parameter.

    /** A parameter set by the host. */
    method SetParameterValue(index: nat, value: int)
      requires Valid()
      modifies this, sequence
      ensures Valid() && State() == SimonGame.SetParameter(old(State()), index, value)
      decreases if index == ParamStart then 3 else 0
    {
      if index == ParamStart {
        if !start && value != 0 {
          if !IsRunning(status) {
            NewGame();
          }
        }
        start := value != 0;
      } else if index == ParamRoot {
        root := value;
      } else if index == ParamNbNotes {
        nbNotes := value;
      } else if index == ParamEffectiveRoot {
        effectiveRoot := value;
      } else if index == ParamEffectiveNbNotes {
        effectiveNbNotes := value;
      } else if index == ParamCurNote {
        curNote := value;
      }
    }

    method NewGame()
      requires Valid()
      modifies this, sequence
      ensures Valid() && State() == SimonGame.NewGame(old(State()))
      decreases 2
    {
      Reset();
      status := Starting;
      lastTime := curTime;
      round := 0;
    }

    /** Blanks the sequence in place and clears the cursors. */
    method Reset()
      requires Valid()
      modifies this, sequence
      ensures Valid() && State() == SimonGame.Reset(old(State()))
      decreases 1
    {
      for i := 0 to MaxRound
        modifies sequence
        invariant forall j :: 0 <= j < i ==> sequence[j] == -1
      {
        sequence[i] := -1;
      }
      assert sequence[..] == SimonGame.Blank;
      SetParameterValue(ParamCurNote, -1);
      round := 0;
      instructionN := 0;
      playN := 0;
    }

    // -------------------------------------------------------------------------
    // Rounds and instructions.

    method NewRound()
      requires Valid()
      modifies this, sequence
      ensures Valid() && State() == SimonGame.NewRound(old(State()))
    {
      status := Instructions;
      instructionN := 0;
      playN := 0;
      AddNote();
      lastTime := curTime;
      round := round + 1;
    }

    /** Writes the round's note into the array, or ends the game once it is full. */
    method AddNote()
      requires Valid()
      modifies this, sequence
      ensures Valid() && State() == SimonGame.AddNote(old(State()))
    {
      if round >= MaxRound {
        status := GameOver;
      } else if round >= 0 {
        sequence[round] := effectiveRoot + round;
      }
    }

    method NextNote(frame: nat)
      requires Valid()
      modifies this
      ensures Valid() && State() == SimonGame.NextNote(old(State()), frame)
    {
      if instructionN >= round {
        status := PlayingWait;
      } else if instructionN < MaxRound {
        curNote := sequence[instructionN];
        if curNote >= 0 {
          SendNoteOn(EP.ToByte(curNote), 127, 0, frame);
          instructionN := instructionN + 1;
        }
      }
    }

    method EndNote(frame: nat)
      requires Valid()
      modifies this
      ensures Valid() && State() == SimonGame.EndNote(old(State()), frame)
    {
      if curNote >= 0 {
        SendNoteOff(EP.ToByte(curNote), 0, frame);
        curNote := -1;
      }
    }

    // -------------------------------------------------------------------------
    // The player's notes.

    method NoteOn(note: EP.Byte, velocity: EP.Byte, channel: EP.Byte, frame: nat)
      requires Valid()
      modifies this
      ensures Valid() && State() == SimonGame.NoteOn(old(State()), note, velocity, channel, frame)
    {
      if IsPlaying(status) {
        ghost var s := State();
        SimonGame.NoteOnPlayed(s, note, velocity, channel, frame);
        if curNote >= 0 {
          SendNoteOff(EP.ToByte(curNote), channel, frame);
        }
        SendNoteOn(note, velocity, channel, frame);
        curNote := note;
        if playN < MaxRound && curNote == sequence[playN] {
          status := PlayingCorrect;
        } else {
          status := PlayingIncorrect;
        }
        playN := playN + 1;
        if playN >= round {
          status := PlayingOver;
        }
        assert sequence[..] == s.sequence;
      }
    }

    method NoteOff(note: EP.Byte, channel: EP.Byte, frame: nat)
      requires Valid()
      modifies this, sequence
      ensures Valid() && State() == SimonGame.NoteOff(old(State()), note, channel, frame)
    {
      if IsPlaying(status) || status == PlayingOver {
        SendNoteOff(note, channel, frame);
        curNote := -1;
        if IsPlaying(status) {
          status := PlayingWait;
        } else {
          NewRound();
        }
      }
    }

    // -------------------------------------------------------------------------
    // Block processing.

    /** `process` on `nbSamples` samples starting at `frame`: the settings are synced
        while no game runs, then the timer runs sample by sample. */
    method Process(nbSamples: nat, frame: nat, sampleRate: nat)
      requires Valid()
      modifies this, sequence
      ensures Valid() && State() == SimonGame.Process(old(State()), nbSamples, frame, sampleRate)
    {
      Sync();
      ghost var synced := State();
      for i := 0 to nbSamples
        invariant Valid()
        invariant State() == SimonGame.Ticks(synced, frame, i, sampleRate)
      {
        SimonGame.TicksNext(synced, frame, i, sampleRate);
        Tick(frame + i, sampleRate);
      }
    }

    /** In-between games the effective settings follow the settings, through the
        parameter setter. */
    method Sync()
      requires Valid()
      modifies this, sequence
      ensures Valid() && State() == SimonGame.Sync(old(State()))
    {
      if !IsRunning(status) {
        if effectiveRoot != root {
          SetParameterValue(ParamEffectiveRoot, root);
        }
        var maxNotes := MaxNbNotes - effectiveRoot;
        if nbNotes > maxNotes {
          SetParameterValue(ParamEffectiveNbNotes, maxNotes);
        } else {
          SetParameterValue(ParamEffectiveNbNotes, nbNotes);
        }
      }
    }

    /** One sample of the timer, at `frame`. */
    method Tick(frame: nat, sampleRate: nat)
      requires Valid()
      modifies this, sequence
      ensures Valid() && State() == SimonGame.Tick(old(State()), frame, sampleRate)
    {
      curTime := curTime + 1;
      var elapsed := curTime - lastTime;
      if status == Starting {
        if elapsed >= SimonGame.NoteInterval * sampleRate {
          NewRound();
        }
      } else if status == Instructions {
        if curNote >= 0 {
          if elapsed >= SimonGame.NoteDuration * sampleRate {
            lastTime := curTime;
            EndNote(frame);
          }
        } else {
          if elapsed >= SimonGame.NoteInterval * sampleRate {
            lastTime := curTime;
            NextNote(frame);
          }
        }
      }
    }

    /** An incoming MIDI event, decoded and delivered to the note hooks; the game leaves
        the sustain and pitch-bend hooks empty. */
    method HandleMidiEvent(ev: EP.MidiEvent)
      requires Valid()
      modifies this, sequence
      ensures Valid() && State() == SimonGame.HandleMidiEvent(old(State()), ev)
    {
      match EP.ProcessMidiEventCorrected(ev)
      case NoteOn(note, velocity, channel, frame) => NoteOn(note, velocity, channel, frame);
      case NoteOff(note, channel, frame) => NoteOff(note, channel, frame);
      case _ =>
    }

    /** A host block of `frames` frames with its MIDI input: the adapter's calls, in the
        order the block loop makes them. */
    method Run(frames: nat, events: seq<EP.MidiEvent>, sampleRate: nat)
      requires Valid()
      modifies this, sequence
      ensures Valid()
      ensures State() == SimonGame.Replay(old(State()), EP.Rest(frames, events, 0, 0), sampleRate)
    {
      var calls := EP.Run(frames, events);
      ghost var s0 := State();
      for i := 0 to |calls|
        invariant Valid()
        invariant State() == SimonGame.Replay(s0, calls[..i], sampleRate)
      {
        match calls[i] {
          case Midi(ev) => HandleMidiEvent(ev);
          case Process(nbSamples, chunkFrame) => Process(nbSamples, chunkFrame, sampleRate);
        }
        SimonGame.ReplayNext(s0, calls, i, sampleRate);
      }
      assert calls[..|calls|] == calls;
    }
  }
}
