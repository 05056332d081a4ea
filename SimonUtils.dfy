/** Helpers shared by the game core and its user interface: the session status and its
    two classifying predicates, the parameter table, a seedable pseudo-random generator,
    and the pseudo-presets with their lookup and the list of their names. */
module SimonUtils {

  /** Capacity of the note sequence; a session never holds more rounds than this. */
  const MaxRound: nat := 128

  /** The session status. `PlayingOver` (the player has entered the whole sequence and
      the game waits for the final note release) is used by the game but missing from the
      enumeration it is stored in; it is added here as its own value. */
  datatype Status =
    | Waiting
    | Starting
    | Instructions
    | PlayingWait
    | PlayingCorrect
    | PlayingIncorrect
    | FeedbackIncorrect
    | GameOver
    | PlayingOver

  /** A game is in progress: every status except the two idle ones. The starting
      pause, the instructions, the feedback and the wait for the last release all
      count as a game in progress. */
  predicate IsRunning(s: Status): (b: bool)
    ensures s == Waiting || s == GameOver ==> !b
    ensures s == Starting || s == Instructions || s == FeedbackIncorrect || s == PlayingOver ==> b
  {
    !(s == Waiting || s == GameOver)
  }

  /** It is the player's turn: a game is running, and the wait for the last release
      is not part of the turn. */
  predicate IsPlaying(s: Status): (b: bool)
    ensures b ==> IsRunning(s)
    ensures s == PlayingOver ==> !b
  {
    s == PlayingWait || s == PlayingCorrect || s == PlayingIncorrect
  }

  /** The player's turn is part of a game, and the two idle statuses are not running;
      `PlayingOver` is running but not a player status. */
  lemma StatusClasses(s: Status)
    ensures IsPlaying(s) ==> IsRunning(s)
    ensures !IsRunning(s) <==> s in {Waiting, GameOver}
    ensures IsPlaying(s) <==> s in {PlayingWait, PlayingCorrect, PlayingIncorrect}
    ensures IsRunning(PlayingOver) && !IsPlaying(PlayingOver)
  {
  }

  // ---------------------------------------------------------------------------
  // Parameters: their indices and the ranges the host keeps their values in.

  const ParamStart: nat := 0
  const ParamRoot: nat := 1
  const ParamNbNotes: nat := 2
  const ParamEffectiveRoot: nat := 17
  const ParamEffectiveNbNotes: nat := 18
  const ParamStatus: nat := 19
  const ParamCurNote: nat := 20
  const ParamRound: nat := 21
  const ParameterCount: nat := 38

  /** The largest value of the number-of-notes parameter: the whole MIDI key range. */
  const MaxNbNotes: int := 128

  /** Whether `value` lies in the declared range of parameter `index`
      (a parameter outside the modelled ones accepts anything). */
  predicate InParamRange(index: nat, value: int) {
    if index == ParamStart then 0 <= value <= 1
    else if index == ParamRoot || index == ParamEffectiveRoot then 0 <= value <= 127
    else if index == ParamNbNotes || index == ParamEffectiveNbNotes then 1 <= value <= MaxNbNotes
    else if index == ParamCurNote then -1 <= value <= 127
    else true
  }

  // ---------------------------------------------------------------------------
  // Rando: the linear congruential generator of the C library manual's example,
  // kept in an object of its own so that its sequence is independent of any other.

  /** The state word is an `unsigned long`; its width is fixed here at 64 bits. */
  const Word: nat := 0x1_0000_0000_0000_0000
  /** `srand` takes an `unsigned int`, 32 bits wide. */
  const SeedBound: nat := 0x1_0000_0000
  /** The largest value `rand` returns. */
  const RandoMax: int := 32767

  /** The state update: multiply, add, wrap around at the word width. */
  function Step(state: nat): (next: nat)
    ensures next < Word
  {
    (state * 1103515245 + 12345) % Word
  }

  /** The value drawn from a freshly updated state: bits 16 to 30 of the state. */
  function Output(state: nat): (r: int)
    ensures 0 <= r <= RandoMax
  {
    ((state / 65536) % 0x1_0000_0000) % 32768
  }

  /** The state reached after `n` draws. */
  function Advance(state: nat, n: nat): nat
    decreases n
  {
    if n == 0 then state else Advance(Step(state), n - 1)
  }

  /** The values of `n` successive draws starting from `state`. */
  function Draws(state: nat, n: nat): seq<int>
    decreases n
  {
    if n == 0 then [] else [Output(Step(state))] + Draws(Step(state), n - 1)
  }

  /** Every draw is in range, and there are as many as asked for. */
  lemma {:induction false} DrawsInRange(state: nat, n: nat)
    ensures |Draws(state, n)| == n
    ensures forall i :: 0 <= i < n ==> 0 <= Draws(state, n)[i] <= RandoMax
    decreases n
  {
    if n > 0 {
      DrawsInRange(Step(state), n - 1);
    }
  }

  /** Drawing `m + n` values is drawing `m`, then `n` more from the state reached: the
      sequence is a function of the seed alone, however the draws are spread out. */
  lemma {:induction false} DrawsSplit(state: nat, m: nat, n: nat)
    ensures Draws(state, m + n) == Draws(state, m) + Draws(Advance(state, m), n)
    decreases m
  {
    if m > 0 {
      DrawsSplit(Step(state), m - 1, n);
      assert m + n - 1 == (m - 1) + n;
    }
  }

  /** The first two draws from the initial state 1 are the manual's reference values. */
  lemma FirstDrawsFromDefaultSeed()
    ensures Draws(1, 2) == [16838, 5758]
  {
    var s1, s2 := DefaultSeedStates();
    assert Output(s1) == 16838;
    assert Output(s2) == 5758;
    assert Draws(s1, 1) == [Output(s2)] + Draws(s2, 0);
  }

  lemma DefaultSeedStates() returns (s1: nat, s2: nat)
    ensures s1 == Step(1) && s2 == Step(s1)
    ensures s1 == 1103527590 && s2 == 1217759518843121895
  {
    s1 := 1103527590;
    s2 := 1217759518843121895;
  }

  class Rando {
    var next: nat

    ghost predicate Valid()
      reads this
    {
      next < Word
    }

    /** A new generator starts from state 1, as if seeded with 1. */
    constructor ()
      ensures Valid() && next == 1
    {
      next := 1;
    }

    /** Advances the state and returns the draw it gives. */
    method Rand() returns (r: int)
      requires Valid()
      modifies this
      ensures Valid()
      ensures next == Step(old(next))
      ensures r == Output(next) && 0 <= r <= RandoMax
      ensures [r] == Draws(old(next), 1)
    {
      next := (next * 1103515245 + 12345) % Word;
      r := ((next / 65536) % 0x1_0000_0000) % 32768;
    }

    /** Restarts the sequence from `seed`. */
    method Srand(seed: nat)
      requires seed < SeedBound
      modifies this
      ensures Valid() && next == seed
    {
      next := seed;
    }
  }

  // ---------------------------------------------------------------------------
  // Pseudo-presets. A negative field is a wildcard: that parameter is not part of
  // the preset.

  datatype Preset = Preset(name: string, root: int, nbNotes: int, scale: seq<int>)

  const NbPresets: nat := 8

  const Presets: seq<Preset> := [
    Preset("One Octave", 60, 12, [1, 1, 1, 1, 1, 1, 1, 1, 1, 1, 1, 1]),
    Preset("D major", 60, 12, [1, 0, 1, 0, 1, 1, 0, 1, 0, 1, 0, 1]),
    Preset("F# Maj pentatonic", 60, 12, [0, 1, 0, 1, 0, 0, 1, 0, 1, 0, 1, 0]),
    Preset("25 keys", 60 - 12, 25, [1, 1, 1, 1, 1, 1, 1, 1, 1, 1, 1, 1]),
    Preset("49 keys", 60 - 24, 49, [1, 1, 1, 1, 1, 1, 1, 1, 1, 1, 1, 1]),
    Preset("61 keys", 60 - 24, 61, [1, 1, 1, 1, 1, 1, 1, 1, 1, 1, 1, 1]),
    Preset("88 keys", 60 - 39, 88, [1, 1, 1, 1, 1, 1, 1, 1, 1, 1, 1, 1]),
    Preset("Custom", -1, -1, [-1, -1, -1, -1, -1, -1, -1, -1, -1, -1, -1, -1])
  ]

  /** A boolean compared with an integer counts as 0 or 1. */
  function Flag(b: bool): int {
    if b then 1 else 0
  }

  /** Whether the settings agree with every non-wildcard field of preset `p`. */
  predicate Matches(p: Preset, root: int, nbNotes: int, scale: seq<bool>) {
    && (p.root < 0 || root == p.root)
    && (p.nbNotes < 0 || nbNotes == p.nbNotes)
    && |scale| == 12 && |p.scale| == 12
    && forall j :: 0 <= j < 12 ==> p.scale[j] < 0 || Flag(scale[j]) == p.scale[j]
  }

  /** The index of the first preset matching the settings, or -1 if there is none. */
  method PresetIdx(root: int, nbNotes: int, scale: seq<bool>) returns (idx: int)
    requires |scale| == 12
    ensures -1 <= idx < NbPresets
    ensures idx == -1 <==> forall i :: 0 <= i < NbPresets ==> !Matches(Presets[i], root, nbNotes, scale)
    ensures idx >= 0 ==> Matches(Presets[idx], root, nbNotes, scale)
    ensures idx >= 0 ==> forall i :: 0 <= i < idx ==> !Matches(Presets[i], root, nbNotes, scale)
  {
    var i := 0;
    while i < NbPresets
      invariant 0 <= i <= NbPresets
      invariant forall k :: 0 <= k < i ==> !Matches(Presets[k], root, nbNotes, scale)
    {
      var p := Presets[i];
      if (p.root >= 0 && root != p.root) || (p.nbNotes >= 0 && nbNotes != p.nbNotes) {
        i := i + 1;
        continue;
      }
      var flags := p.scale;
      assert |flags| == 12;
      var j := 0;
      while j < 12
        invariant 0 <= j <= 12
        invariant forall k :: 0 <= k < j ==> flags[k] < 0 || Flag(scale[k]) == flags[k]
      {
        if flags[j] >= 0 && Flag(scale[j]) != flags[j] {
          break;
        }
        j := j + 1;
      }
      // stopped on a mismatching scale flag
      if j < 12 {
        i := i + 1;
        continue;
      }
      return i;
    }
    return -1;
  }

  /** The last preset is all wildcards, so every setting matches some preset and the
      lookup over this table never answers -1. */
  lemma CustomMatchesAll(root: int, nbNotes: int, scale: seq<bool>)
    requires |scale| == 12
    ensures Matches(Presets[NbPresets - 1], root, nbNotes, scale)
  {
  }

  /** Middle C, one octave and every pitch class active is the first preset. */
  lemma OneOctaveIsFirst()
    ensures Matches(Presets[0], 60, 12, seq(12, _ => true))
  {
  }

  // ---------------------------------------------------------------------------
  // The preset names as one string, separated by ';', for a combo box to split.

  const Separator: char := ';'

  /** Each name followed by a separator. */
  function Terminated(names: seq<string>): string {
    if names == [] then "" else names[0] + [Separator] + Terminated(names[1..])
  }

  /** The names with a separator between consecutive ones and none at the end. */
  function Join(names: seq<string>): string {
    if names == [] then "" else Terminated(names[..|names| - 1]) + names[|names| - 1]
  }

  /** Cuts a string at every separator: the inverse of `Join`. */
  function Split(s: string): (parts: seq<string>)
    ensures |parts| > 0
  {
    if s == [] then [""]
    else
      var rest := Split(s[1..]);
      if s[0] == Separator then [""] + rest
      else [[s[0]] + rest[0]] + rest[1..]
  }

  /** The number of separators in a string. */
  function SeparatorCount(s: string): nat {
    if s == [] then 0 else (if s[0] == Separator then 1 else 0) + SeparatorCount(s[1..])
  }

  predicate NoSeparator(names: seq<string>) {
    forall i :: 0 <= i < |names| ==> Separator !in names[i]
  }

  lemma {:induction false} TerminatedSnoc(names: seq<string>, name: string)
    ensures Terminated(names + [name]) == Terminated(names) + name + [Separator]
  {
    if names != [] {
      assert (names + [name])[1..] == names[1..] + [name];
      TerminatedSnoc(names[1..], name);
    }
  }

  /** A string with no separator is one part. */
  lemma {:induction false} SplitSingle(a: string)
    requires Separator !in a
    ensures Split(a) == [a]
  {
    if a != [] {
      SplitSingle(a[1..]);
      assert [a[0]] + a[1..] == a;
    }
  }

  /** A separator after a separator-free prefix ends the first part. */
  lemma {:induction false} SplitAfterSeparator(a: string, b: string)
    requires Separator !in a
    ensures Split(a + [Separator] + b) == [a] + Split(b)
  {
    var s := a + [Separator] + b;
    if a == [] {
      assert s[0] == Separator && s[1..] == b;
    } else {
      assert s[1..] == a[1..] + [Separator] + b;
      SplitAfterSeparator(a[1..], b);
      assert [a[0]] + a[1..] == a;
    }
  }

  lemma {:induction false} SplitTerminated(names: seq<string>, last: string)
    requires NoSeparator(names) && Separator !in last
    ensures Split(Terminated(names) + last) == names + [last]
  {
    if names == [] {
      assert Terminated(names) + last == last;
      SplitSingle(last);
    } else {
      var rest := Terminated(names[1..]) + last;
      assert Terminated(names) + last == names[0] + [Separator] + rest;
      SplitAfterSeparator(names[0], rest);
      SplitTerminated(names[1..], last);
      assert [names[0]] + names[1..] == names;
    }
  }

  /** Round trip: splitting the joined names gives the names back, provided none of
      them contains the separator. */
  lemma SplitJoin(names: seq<string>)
    requires |names| > 0 && NoSeparator(names)
    ensures Split(Join(names)) == names
  {
    var n := |names| - 1;
    SplitTerminated(names[..n], names[n]);
    assert names[..n] + [names[n]] == names;
  }

  /** A string with `c` separators has `c + 1` parts. */
  lemma {:induction false} SplitCount(s: string)
    ensures |Split(s)| == SeparatorCount(s) + 1
  {
    if s != [] {
      SplitCount(s[1..]);
    }
  }

  /** The names of the preset table, in order. */
  function PresetNameList(): (names: seq<string>)
    ensures |names| == NbPresets
  {
    seq(NbPresets, i requires 0 <= i < NbPresets => Presets[i].name)
  }

  /** Builds the `;`-separated list of the preset names, one concatenation at a time. */
  method PresetsNames() returns (names: string)
    ensures names == Join(PresetNameList())
    ensures Split(names) == PresetNameList()
    ensures SeparatorCount(names) == NbPresets - 1
    ensures |names| > 0 && names[|names| - 1] != Separator
  {
    ghost var all := PresetNameList();
    names := "";
    var i := 0;
    while i < NbPresets - 1
      invariant 0 <= i <= NbPresets - 1
      invariant names == Terminated(all[..i])
    {
      TerminatedSnoc(all[..i], Presets[i].name);
      assert all[..i + 1] == all[..i] + [Presets[i].name];
      names := names + Presets[i].name;
      names := names + [Separator];
      i := i + 1;
    }
    if NbPresets > 0 {
      names := names + Presets[NbPresets - 1].name;
    }
    PresetNamesSplit();
  }

  /** The joined preset names split back into the names, with one separator fewer than
      there are presets and none at the end. */
  lemma PresetNamesSplit()
    ensures Split(Join(PresetNameList())) == PresetNameList()
    ensures SeparatorCount(Join(PresetNameList())) == NbPresets - 1
    ensures |Join(PresetNameList())| > 0 && Join(PresetNameList())[|Join(PresetNameList())| - 1] != Separator
  {
    var all := PresetNameList();
    assert NoSeparator(all) by {
      forall k | 0 <= k < NbPresets ensures Separator !in all[k] {
        assert all[k] == Presets[k].name;
      }
    }
    SplitJoin(all);
    SplitCount(Join(all));
    assert all[NbPresets - 1] == "Custom";
  }
}
