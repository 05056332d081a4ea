# SimonPiano in Dafny

SimonPiano is a "play after me" memory game built as a MIDI audio plugin. The host
turns Start on and a game begins. After a short pause the plugin plays an example:
a sequence of notes, one more each round, that it sounds and releases one at a time.
The player then plays the sequence back on a keyboard. The plugin passes the player's
notes through, judges each against the sequence, and starts the next round when the
last note of the turn is released.

This project models the plugin's core in three parts:

- **The game state machine.** This is the plugin class with its fields, its fixed-size
  note buffer and the MIDI it sends. It is modelled twice:
  - as pure transitions on a `Snapshot` value, in module `SimonGame`, where the game's
    properties are proved;
  - as a class with an array and a ghost output sequence, in module `SimonPiano`. Each
    of its methods is proved to move the object's state exactly as the matching
    transition moves a snapshot.
- **The shared helpers** (module `SimonUtils`):
  - the status classes;
  - the parameter table;
  - the seedable pseudo-random generator;
  - the pseudo-presets with their lookup and their joined names.
- **The MIDI adapter** (module `ExtendedPlugin`):
  - the decoder of incoming channel voice messages, which follow the Channel Voice
    Messages section of the MIDI 1.0 Detailed Specification;
  - the builders of outgoing Note On and Note Off messages;
  - the block loop, which cuts a host block into chunks of at most 128 frames. Before
    each chunk it hands over, in the host's order, the pending events up to the first
    whose frame is past the chunk offset; the events behind that one wait, even when
    they are due. When the host delivers its events in frame order, each event
    therefore comes before the first chunk its frame allows
    (`ExtendedPlugin.DueBySorted`).

Time is an integer count of samples. A timed action fires once `NoteInterval *
sampleRate` or `NoteDuration * sampleRate` samples have passed since the last one.
Both constants are 1 second, as in the source.

`SimonGame.Consistent` is the invariant of a session:

- the settings lie in their declared ranges;
- the cursors never pass the round;
- the notes of the rounds played so far are written and the rest of the buffer is blank;
- the time reference is never in the future.

Every step the host can trigger keeps it:
- a new game;
- a parameter set within its declared range (`SimonGame.SetParameterConsistent`);
- a note played or released;
- the sync, one timer sample, any run of samples and a `process` call;
- an incoming MIDI event;
- any sequence of `process` calls and MIDI events (`SimonGame.ReplayConsistent`).

`reset` and `addNote` are internal steps: they keep the invariant only as parts of a
new game and a new round. A new round keeps it when started from a running status,
as every call of `newRound` is.

The note of round n is written as `effectiveRoot + n - 1`, as in the source. Nothing
bounds it by 127: with effective root 127 the second round's note is 128. Such a note
is sent as a Note On whose data byte is 128, outside the 7-bit range of MIDI data
bytes. The model keeps this behaviour as written.

## Model

| member | source | states |
|---|---|---|
| SimonUtils.StatusClasses | plugins/SimonPiano/SimonUtils.h:11-31 | `isRunning` is false exactly for Waiting and GameOver. `isPlaying` is true exactly for the three player statuses, so it implies `isRunning`. The extra PlayingOver status is running but not playing. |
| SimonUtils.IsRunning | plugins/SimonPiano/SimonUtils.h:25-27 | `isRunning` is false for Waiting and GameOver and true for Starting, Instructions, FeedbackIncorrect and PlayingOver. The three player statuses are running through `SimonUtils.IsPlaying` and `SimonUtils.StatusClasses`. |
| SimonUtils.IsPlaying | plugins/SimonPiano/SimonUtils.h:29-31 | `isPlaying` implies `isRunning`. It is false for PlayingOver. |
| SimonUtils.Step | plugins/SimonPiano/SimonUtils.h:91 | The generator's state update stays within the 64-bit word. |
| SimonUtils.Output | plugins/SimonPiano/SimonUtils.h:92 | A draw is always in 0..32767. |
| SimonUtils.Rando.constructor | plugins/SimonPiano/SimonUtils.h:101 | A new generator starts from state 1. |
| SimonUtils.Rando.Rand | plugins/SimonPiano/SimonUtils.h:90-93 | `rand` advances the state by one step and returns a value in 0..32767. That value is the first of the draws defined by the old state. |
| SimonUtils.Rando.Srand | plugins/SimonPiano/SimonUtils.h:96-98 | `srand` sets the state to the seed. |
| SimonUtils.DrawsInRange | plugins/SimonPiano/SimonUtils.h:90-93 | Any number of successive draws are all in 0..32767. |
| SimonUtils.DrawsSplit | plugins/SimonPiano/SimonUtils.h:90-101 | Drawing m + n values equals drawing m, then n from the state reached. The sequence of draws is therefore a function of the seed alone. |
| SimonUtils.FirstDrawsFromDefaultSeed | plugins/SimonPiano/SimonUtils.h:82-101 | From the initial state 1, the first two draws are 16838 and 5758, the C library manual's reference values. |
| SimonUtils.PresetIdx | plugins/SimonPiano/SimonUtils.h:132-154 | The result is -1 exactly when no preset matches. Otherwise it is the smallest index whose non-negative root, note count and scale flags all equal the inputs; negative fields are wildcards. |
| SimonUtils.CustomMatchesAll | plugins/SimonPiano/SimonUtils.h:119-129 | The last preset, "Custom", matches every setting, so the lookup never returns -1 for the shipped table. |
| SimonUtils.OneOctaveIsFirst | plugins/SimonPiano/SimonUtils.h:120 | Root 60, 12 notes and all twelve flags on match preset 0. |
| SimonUtils.SplitJoin | plugins/SimonPiano/SimonUtils.h:157-168 | Splitting the `;`-joined names at `;` gives the names back, provided none contains `;`. |
| SimonUtils.SplitCount | plugins/SimonPiano/SimonUtils.h:157-168 | A string with c separators splits into c + 1 parts. |
| SimonUtils.PresetNameList | plugins/SimonPiano/SimonUtils.h:116-129 | There is one name per preset. |
| SimonUtils.PresetNamesSplit | plugins/SimonPiano/SimonUtils.h:157-168 | The joined preset names split back into the names. They hold NB_PRESETS - 1 separators and do not end with one. |
| SimonUtils.PresetsNames | plugins/SimonPiano/SimonUtils.h:157-168 | The concatenation loop builds exactly the joined names: no trailing `;`, NB_PRESETS - 1 separators, and they split back into the preset names. |
| ExtendedPlugin.PitchBendBitwise | src/ExtendedPlugin.hpp:93 | For any two bytes, the model's bend value equals `data[1] \| (data[2] << 7)` computed bit by bit, against independent definitions of `\|` and `<<` on naturals. |
| ExtendedPlugin.PitchBendFourteenBits | src/ExtendedPlugin.hpp:89-93 | With 7-bit data bytes, `data[1] \| data[2] << 7` is the 14-bit value they form. |
| ExtendedPlugin.Decode | src/ExtendedPlugin.hpp:47-107 | Events of size at most 1 or above 4 reach no hook. Any hook reached gets the event's frame and the channel `data[0] & 0x0F`. |
| ExtendedPlugin.ProcessMidiEvent | src/ExtendedPlugin.hpp:47-107 | The decoder as written, field by field. Within sizes 2..4 the status byte's high nibble picks the hook and its low nibble is the channel. A Note On of 3 or 4 bytes gets note `data[1]` and velocity `data[2]`. A Note Off gets note `data[1]`. A Control Change reaches `sustain` only with 4 bytes and controller 64, on exactly when `data[2] >= 64`, and otherwise reaches no hook. A pitch bend of 3 or 4 bytes gets `data[1] \| data[2] << 7`. A two-byte event other than a Note Off, any other type, and any size outside 2..4 reach no hook. Conversely, a Note On, Note Off or sustain reached has the type and size that select it. |
| ExtendedPlugin.ProcessMidiEventCorrected | src/ExtendedPlugin.hpp:47-107 | The same decoder, field by field, except that a Control Change with controller 64 reaches `sustain` from 3 or 4 bytes. |
| ExtendedPlugin.FourByteSustain | src/ExtendedPlugin.hpp:70-86 | A four-byte sustain message reaches `sustain` with the channel and the pedal state, under both decoders; the fourth byte is ignored. |
| ExtendedPlugin.NoteOnEvent | src/ExtendedPlugin.hpp:114-132 | A built Note On is a three-byte event at the given frame, with a status byte in 0x90..0x9F. |
| ExtendedPlugin.NoteOffEvent | src/ExtendedPlugin.hpp:137-155 | A built Note Off is a three-byte event at the given frame, with a status byte in 0x80..0x8F and release velocity 0. |
| ExtendedPlugin.DecodeNoteOnEvent | src/ExtendedPlugin.hpp:47-67 | Round trip: decoding `sendNoteOn(n, v, c, f)` calls `noteOn(n, v, c & 0x0F, f)`. Velocity 0 stays a Note On. |
| ExtendedPlugin.DecodeNoteOffEvent | src/ExtendedPlugin.hpp:47-67 | Round trip: decoding `sendNoteOff(n, c, f)` calls `noteOff(n, c & 0x0F, f)`. |
| ExtendedPlugin.ReencodeNoteOn | src/ExtendedPlugin.hpp:56-61 | The other direction: a three-byte event decoded as a Note On is rebuilt byte for byte from the decoded fields. |
| ExtendedPlugin.ReencodeNoteOff | src/ExtendedPlugin.hpp:63-67 | A three-byte event decoded as a Note Off is rebuilt from the decoded fields, except the release velocity, which the decoder drops. |
| ExtendedPlugin.ThreeByteSustainIgnored | src/ExtendedPlugin.hpp:70-86 | As written, a standard three-byte sustain message reaches no hook. |
| ExtendedPlugin.ThreeByteSustainCorrected | src/ExtendedPlugin.hpp:70-86 | The corrected decoder delivers that message to `sustain`. |
| ExtendedPlugin.CorrectionOnlyAddsSustain | src/ExtendedPlugin.hpp:47-107 | The two decoders differ only on three-byte messages, which the corrected one delivers to `sustain`. |
| ExtendedPlugin.DueByExact | src/ExtendedPlugin.hpp:194-203 | The inner loop stops at the first event whose frame is past the chunk offset. |
| ExtendedPlugin.DueBySorted | src/ExtendedPlugin.hpp:194-203 | With events in non-decreasing frame order, an event is delivered before the chunk at offset k exactly when its frame is at most k. |
| ExtendedPlugin.TilesUpToSpec | src/ExtendedPlugin.hpp:189-226 | The chunks handed over so far are consecutive from offset 0. Each has size `min(BUFFER_SIZE, frames - k)`, and together they cover exactly the frames before the cursor. |
| ExtendedPlugin.TilesDone | src/ExtendedPlugin.hpp:189-226 | Once the cursor reaches `frames`, the chunks tile the whole block and their offsets strictly increase. |
| ExtendedPlugin.DeliverStep | src/ExtendedPlugin.hpp:194-199 | Delivering the next due event keeps the loop's invariant. |
| ExtendedPlugin.ChunkStep | src/ExtendedPlugin.hpp:189-226 | Processing the next chunk keeps the loop's invariant and moves the cursor by the chunk size. |
| ExtendedPlugin.RestWithinBlock | src/ExtendedPlugin.hpp:186-233 | The remaining calls of the loop only process chunks inside the block, after the cursor, of 1 to `BUFFER_SIZE` frames and ending by the block's end. They only deliver events not yet handed over. While frames remain, some call remains. |
| ExtendedPlugin.RestChunk | src/ExtendedPlugin.hpp:189-226 | When no event is due, the loop's next call processes the chunk at the cursor, and the loop's invariant still holds after it. |
| ExtendedPlugin.RestEvent | src/ExtendedPlugin.hpp:194-199 | When an event is due, or no frames remain, the loop's next call delivers it, and the loop's invariant still holds after it. |
| ExtendedPlugin.RestCompletes | src/ExtendedPlugin.hpp:186-233 | From any point of the loop, the remaining calls deliver every event and cover every frame. |
| ExtendedPlugin.BlockSchedules | src/ExtendedPlugin.hpp:186-233 | The calls of a block form a schedule: every event once and in order, chunks tiling the block with strictly increasing offsets, and before each chunk exactly the events due by its offset. Leftovers, or all events of an empty block, come last. |
| ExtendedPlugin.Run | src/ExtendedPlugin.hpp:186-233 | The block loop makes exactly the calls the step-by-step specification lists, and they form such a schedule. |
| SimonGame.Reset | plugins/SimonPiano/SimonPiano.cpp:349-359 | Every entry of the sequence is -1, `curNote` is -1, and the round and both cursors are 0. No other field changes: status, settings, clock and output are as before. |
| SimonGame.NewGame | plugins/SimonPiano/SimonPiano.cpp:228-235 | After a new game the sequence is blank, `curNote == -1`, `round == instructionN == playN == 0`, the status is Starting, `lastTime == curTime`, and the settings are unchanged. |
| SimonGame.AddNote | plugins/SimonPiano/SimonPiano.cpp:252-261 | When 0 <= round < 128, exactly position `round` changes, to `effectiveRoot + round`. At 128 or more the status becomes GameOver and the sequence is unchanged. No field other than the sequence and the status changes, and a negative round changes nothing. |
| SimonGame.NewRound | plugins/SimonPiano/SimonPiano.cpp:238-250 | Both cursors are reset and the status is Instructions, or GameOver when the buffer is full. The note is written at the old round's position, then the round grows by exactly one. |
| SimonGame.NextNote | plugins/SimonPiano/SimonPiano.cpp:265-281 | With `instructionN >= round` the status becomes PlayingWait and nothing is sent. Otherwise `curNote` becomes the note at the cursor. Exactly when that note is written, it is sent at velocity 127 on channel 0 and the cursor advances. `instructionN <= round` is preserved. Only the status, `curNote`, the output and the cursor can change; with the cursor at 128 or more but below the round nothing changes. |
| SimonGame.EndNote | plugins/SimonPiano/SimonPiano.cpp:285-292 | A sounding note is released on channel 0 and `curNote` becomes -1. With no note sounding nothing changes. |
| SimonGame.NoteOn | plugins/SimonPiano/SimonPiano.cpp:184-210 | Outside the player's turn nothing changes. In the turn, any sounding note is released first, then the new note is sent and becomes `curNote`, and `playN` grows by one. The status is PlayingOver exactly when `playN` reaches the round. Otherwise it is PlayingCorrect exactly when the note equals the sequence at the cursor, and PlayingIncorrect exactly when it does not. |
| SimonGame.NoteOff | plugins/SimonPiano/SimonPiano.cpp:212-226 | In the player's turn or once it is over, the release is sent and `curNote` becomes -1. A player status then goes to PlayingWait with nothing else changed. PlayingOver starts the next round: the result is exactly `newRound` applied to the state with the release sent and `curNote` cleared. Any other state is unchanged. |
| SimonGame.SetParameter | plugins/SimonPiano/SimonPiano.cpp:150-180 | Start triggers a new game only when start was off, the new value is on and no game runs. In every case start then takes the new value. Root, note count, effective root, effective note count and current note are plain assignments; any other index changes nothing. |
| SimonGame.Sync | plugins/SimonPiano/SimonPiano.cpp:294-308 | Between games `effectiveRoot := root` and `effectiveNbNotes := min(nbNotes, 128 - root)`, so the effective range stays within the MIDI keys. During a game nothing changes. |
| SimonGame.Tick | plugins/SimonPiano/SimonPiano.cpp:311-344 | One sample advances the clock by one, sends at most one event, and grows the round by at most one. Statuses other than Starting and Instructions only let time pass. When the action fires is stated by `SimonGame.TickTimer`. |
| SimonGame.TickTimer | plugins/SimonPiano/SimonPiano.cpp:311-344 | The delay (`SimonGame.Delay`) is `NOTE_DURATION` seconds while an instruction note sounds and `NOTE_INTERVAL` seconds otherwise. In Starting and Instructions, a sample whose elapsed time is below the delay only moves the clock. In Starting a round starts exactly when the elapsed time reaches the delay, and the sample is then `newRound` with the time reference reset. A held note is released on channel 0 at the sample's frame, with the reference reset and nothing else changed. After the gap the sample is `nextNote` with the reference reset. |
| SimonGame.Ticks | plugins/SimonPiano/SimonPiano.cpp:311-344 | n samples advance the clock by n. The output and the round only grow. |
| SimonGame.Process | plugins/SimonPiano/SimonPiano.cpp:294-346 | A chunk of n samples advances the clock by n, and the output only grows. The sync comes first: see `SimonGame.ProcessSyncsFirst`. |
| SimonGame.HandleMidiEvent | src/ExtendedPlugin.hpp:47-107 | Outside the player's turn and its closing release, and for any event of size outside 2..4, nothing changes. Input never changes the settings, the effective settings or the clock, and never takes back sent MIDI. |
| SimonGame.Apply | src/ExtendedPlugin.hpp:186-233 | A delivered event leaves the clock alone; a chunk advances it by its length. Neither takes back sent MIDI. |
| SimonGame.Replay | src/ExtendedPlugin.hpp:186-233 | The calls of a block applied in order never take back sent MIDI. |
| SimonGame.ReplayNext | src/ExtendedPlugin.hpp:186-233 | The unfolding of `Replay` at one more call, used by the loop of `SimonPiano.SimonPiano.Run`: replaying a prefix one call longer applies that call to the state reached. |
| SimonGame.Dispatch | src/ExtendedPlugin.hpp:38-44 | The game overrides only the note hooks: a Note On callback is exactly `noteOn` with its fields, a Note Off exactly `noteOff`, and sustain and pitch bend leave the game unchanged. |
| SimonGame.InitialConsistent | plugins/SimonPiano/SimonPiano.cpp:13-15 | A freshly built plugin satisfies the session invariant. |
| SimonGame.NewGameConsistent | plugins/SimonPiano/SimonPiano.cpp:228-235 | A new game keeps the invariant. |
| SimonGame.NewRoundConsistent | plugins/SimonPiano/SimonPiano.cpp:238-261 | A new round started during a game keeps the invariant. Written notes stay in 0..254 and the entries past the round stay -1. |
| SimonGame.SetParameterConsistent | plugins/SimonPiano/SimonPiano.cpp:150-180 | Setting a parameter within its declared range keeps the invariant. |
| SimonGame.NoteOnConsistent | plugins/SimonPiano/SimonPiano.cpp:184-210 | A note played keeps the invariant; `playN` never passes the round. |
| SimonGame.NoteOffConsistent | plugins/SimonPiano/SimonPiano.cpp:212-226 | A note released keeps the invariant. |
| SimonGame.SyncConsistent | plugins/SimonPiano/SimonPiano.cpp:294-308 | Syncing the settings keeps the invariant. |
| SimonGame.TickConsistent | plugins/SimonPiano/SimonPiano.cpp:311-344 | One timer sample keeps the invariant. |
| SimonGame.TicksConsistent | plugins/SimonPiano/SimonPiano.cpp:311-344 | Any number of timer samples keep the invariant. |
| SimonGame.ProcessConsistent | plugins/SimonPiano/SimonPiano.cpp:294-346 | `process` keeps the invariant. |
| SimonGame.HandleMidiEventConsistent | src/ExtendedPlugin.hpp:47-107 | An incoming MIDI event keeps the invariant. |
| SimonGame.ReplayConsistent | src/ExtendedPlugin.hpp:186-233 | Any sequence of `process` calls and MIDI events keeps the invariant. |
| SimonGame.InstructionsNeverStall | plugins/SimonPiano/SimonPiano.cpp:265-281 | During the instructions the note at the cursor is always written. Each note start therefore sends a note and advances the cursor. |
| SimonGame.TicksIdle | plugins/SimonPiano/SimonPiano.cpp:315-343 | Outside Starting and Instructions, a run of samples only advances the clock. |
| SimonGame.TicksWait | plugins/SimonPiano/SimonPiano.cpp:311-344 | In Starting and Instructions, samples that end before the delay is up only move the clock. |
| SimonGame.TicksThenTick | plugins/SimonPiano/SimonPiano.cpp:311-344 | While the delay is not up, n + 1 samples are n samples of waiting and then one sample from the unchanged state. |
| SimonGame.PauseThenRound | plugins/SimonPiano/SimonPiano.cpp:317-321 | After a new game the starting pause lasts exactly `NOTE_INTERVAL` seconds, to the sample; then the first round starts. |
| SimonGame.NoteHeldThenReleased | plugins/SimonPiano/SimonPiano.cpp:325-331 | An instruction note is held for exactly `NOTE_DURATION` seconds. In the last of those samples it is released on channel 0 at that sample's frame, the time reference is reset, and nothing else changes. |
| SimonGame.GapThenNextNote | plugins/SimonPiano/SimonPiano.cpp:333-339 | After a released note the timer waits exactly `NOTE_INTERVAL` seconds, then gives the next note, or hands over to the player, with the time reference reset. |
| SimonGame.ProcessSyncsFirst | plugins/SimonPiano/SimonPiano.cpp:294-346 | Between games the settings are synced before any sample and the block then only moves the clock. During a game the sync changes nothing and the block is the timer run on the state as it was. |
| SimonGame.ProcessWhileIdle | plugins/SimonPiano/SimonPiano.cpp:294-346 | Between games a block applies the settings to the effective settings and otherwise only advances the clock. `effectiveRoot == root` and `effectiveRoot + effectiveNbNotes <= 128`. |
| SimonGame.ReplayClock | src/ExtendedPlugin.hpp:186-233 | Replaying calls advances the game's clock by exactly the frames their chunks cover. |
| SimonGame.BlockAdvancesClock | src/ExtendedPlugin.hpp:186-233 | A host block of `frames` frames advances the game's clock by exactly `frames` samples, whatever MIDI comes with it. |
| SimonGame.DecoderFixUnseen | src/ExtendedPlugin.hpp:70-86 | The game ignores sustain, so the corrected decoder and the decoder as written drive it identically. |
| SimonGame.FirstInstructions | plugins/SimonPiano/SimonPiano.cpp:150-344 | Start pressed on a fresh plugin at one sample per second, then a chunk of four samples at any frame offset f: note 60 has been sent at frame f + 1 and released at f + 2, and it is the player's turn of round 1. |
| SimonGame.LastRightAnswer | plugins/SimonPiano/SimonPiano.cpp:184-210 | The last note of a turn, played right with no note sounding, is sent. The turn is over and nothing else changes. |
| SimonGame.ReleaseStartsRound | plugins/SimonPiano/SimonPiano.cpp:212-261 | Releasing once the turn is over sends the release and starts the next round: Instructions, one more round, the new note `effectiveRoot + round` written. |
| SimonGame.LastAnswerReleased | plugins/SimonPiano/SimonPiano.cpp:184-261 | The last note of a round below 128, answered right and then released, starts the next round with its note written at the old round's position. The answer and its release are passed through. |
| SimonGame.FirstRound | plugins/SimonPiano/SimonPiano.cpp:150-344 | Answering 60, at any velocity, channel and frame, and releasing it after the first example starts round 2 with the sequence 60, 61. The plugin has sent the example's note-on and note-off and passed the answer through. |
| SimonPiano.SimonPiano.constructor | plugins/SimonPiano/SimonPiano.cpp:13-15 | A new plugin has the parameters' defaults, a blank sequence and nothing sent. |
| SimonPiano.SimonPiano.SendNoteOn | src/ExtendedPlugin.hpp:114-132 | Appends the built Note On to the output; nothing else changes. |
| SimonPiano.SimonPiano.SendNoteOff | src/ExtendedPlugin.hpp:137-155 | Appends the built Note Off to the output; nothing else changes. |
| SimonPiano.SimonPiano.SetParameterValue | plugins/SimonPiano/SimonPiano.cpp:150-180 | The object moves as `SimonGame.SetParameter` says. |
| SimonPiano.SimonPiano.NewGame | plugins/SimonPiano/SimonPiano.cpp:228-235 | The object moves as `SimonGame.NewGame` says. |
| SimonPiano.SimonPiano.Reset | plugins/SimonPiano/SimonPiano.cpp:349-359 | The array is blanked in place and the object moves as `SimonGame.Reset` says. |
| SimonPiano.SimonPiano.NewRound | plugins/SimonPiano/SimonPiano.cpp:238-250 | The object moves as `SimonGame.NewRound` says. |
| SimonPiano.SimonPiano.AddNote | plugins/SimonPiano/SimonPiano.cpp:252-261 | Writes one array cell in place, as `SimonGame.AddNote` says. |
| SimonPiano.SimonPiano.NextNote | plugins/SimonPiano/SimonPiano.cpp:265-281 | The object moves as `SimonGame.NextNote` says. |
| SimonPiano.SimonPiano.EndNote | plugins/SimonPiano/SimonPiano.cpp:285-292 | The object moves as `SimonGame.EndNote` says. |
| SimonPiano.SimonPiano.NoteOn | plugins/SimonPiano/SimonPiano.cpp:184-210 | The object moves as `SimonGame.NoteOn` says. |
| SimonPiano.SimonPiano.NoteOff | plugins/SimonPiano/SimonPiano.cpp:212-226 | The object moves as `SimonGame.NoteOff` says. |
| SimonPiano.SimonPiano.Sync | plugins/SimonPiano/SimonPiano.cpp:296-308 | The settings sync, done through the parameter setter, moves the object as `SimonGame.Sync` says. |
| SimonPiano.SimonPiano.Tick | plugins/SimonPiano/SimonPiano.cpp:312-343 | One pass of the timer loop moves the object as `SimonGame.Tick` says. |
| SimonPiano.SimonPiano.Process | plugins/SimonPiano/SimonPiano.cpp:294-346 | After the sync and the sample loop, the object is as `SimonGame.Process` says. |
| SimonPiano.SimonPiano.HandleMidiEvent | src/ExtendedPlugin.hpp:47-107 | A decoded event reaches `noteOn` or `noteOff` and moves the object as `SimonGame.HandleMidiEvent` says. |
| SimonPiano.SimonPiano.Run | src/ExtendedPlugin.hpp:186-233 | A host block moves the object through exactly the calls of the block schedule, in order. |

## Left out

- Time is a count of samples. The source accumulates `1./getSampleRate()` in `double`s, and that floating-point rounding is not modelled. The sample rate is a parameter of `process` and `run`.
- The pitch-bend ratio is float arithmetic and is not modelled. The model forms the 14-bit value and dispatches the event; the game ignores pitch bend.
- Audio buffer copying between the host and the plugin's buffers is not modelled. The values are floats, and the game has no audio ports.
- The `run` variant without MIDI input is not modelled. It is compiled out for this plugin and calls a conversion routine that is not part of this model.
- The WebAssembly frame-zero hotfix in the note builders is not modelled. The model builds events for the native target.
- `writeMidiEvent`, `d_stdout` and the framework base classes are foreign calls. Sent MIDI is a ghost sequence, and log output is dropped.
- Plugin metadata, parameter declarations and `getParameterValue` are not modelled. The parameter ranges appear only as constants.
- The user interface files are not modelled.
- Parameter values are modelled as integers. The source's `float` to `int` and `bool` conversions are not modelled.
- `SimonPiano.SimonPiano.SetParameterValue` accepts any value; only `SimonGame.SetParameterConsistent` asks for the declared range. The host keeps values in range.
- `unsigned long` in the generator is fixed at 64 bits; on other platforms it is 32 bits wide.
- `uint32_t` frame offsets and the `uint` cursors `instructionN`/`playN` are unbounded naturals here. They cannot come near 2^32 in a game of at most 128 rounds.
- The unused fourth data byte of a built event is left uninitialised in the source and set to 0 here. No decoder reads it for a three-byte event.
- `SimonPiano.SimonPiano.Run` first computes the adapter's calls with `ExtendedPlugin.Run`, then applies them in order. The source interleaves the two. The calls do not depend on the plugin's state, so the order of effects is the same.
- `SimonPiano.SimonPiano.HandleMidiEvent` uses the corrected decoder. `SimonGame.DecoderFixUnseen` proves that the game behaves identically with the decoder as written.

## Findings

| source | as written | input that shows it | evidently intended | confidence | as-written member | corrected member |
|---|---|---|---|---|---|---|
| src/ExtendedPlugin.hpp:71 | A Control Change is read only when `size > 3`, but a Control Change message is three bytes long | `[0xB0, 64, 127]` with size 3 (sustain pedal down, channel 0) reaches no hook | `size > 2`, so that the sustain pedal reaches `sustain` | medium, not executed | ExtendedPlugin.ThreeByteSustainIgnored | ExtendedPlugin.ThreeByteSustainCorrected |
