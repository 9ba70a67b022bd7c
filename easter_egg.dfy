/**
 * The keystroke-sequence detector of the Chrono Trigger easter egg: a sliding
 * window over the last four accepted keys, a one-way unlock when the window
 * spells the secret code, a lazily created looping audio track, a play/pause
 * toggle and the teardown on unmount.
 */
module EasterEgg {
  import opened Wrappers

  /** The lower-cased keys the listener lets through. */
  const Alphabet: seq<string> := ["x", "a", "b", "y"]
  /** `slice(-4)`: the buffer keeps at most this many keys. */
  const WindowSize: nat := 4
  const AudioSource: string := "/audio/Chrono_Trigger-Corridors_of_Time.mp3"
  const AudioVolume: real := 0.3

  // ---------------------------------------------------------------------------
  // Normalisation: `e.key.toLowerCase()` and the alphabet filter
  // ---------------------------------------------------------------------------

  predicate IsUpper(c: char)
  {
    'A' <= c <= 'Z'
  }

  function LowerChar(c: char): char
  {
    if IsUpper(c) then (c as int + 32) as char else c
  }

  /** Lower-casing of ASCII letters; every other character is kept. */
  function ToLower(s: string): (r: string)
    ensures |r| == |s|
    ensures forall i :: 0 <= i < |r| ==> !IsUpper(r[i])
    ensures forall i :: 0 <= i < |s| && !IsUpper(s[i]) ==> r[i] == s[i]
    ensures forall i :: 0 <= i < |s| && IsUpper(s[i]) ==> r[i] as int == s[i] as int + 32
  {
    if s == [] then [] else [LowerChar(s[0])] + ToLower(s[1..])
  }

  lemma ToLowerSingle(c: char)
    ensures ToLower([c]) == [LowerChar(c)]
  {
    assert [c][1..] == [];
  }

  /** An accepted key. The window holds these; `Letter` gives the one-letter string the component stores. */
  datatype Symbol = X | A | B | Y

  function Letter(s: Symbol): string
  {
    match s
    case X => "x"
    case A => "a"
    case B => "b"
    case Y => "y"
  }

  /** The alphabet filter on a lower-cased key: which accepted key it is, if any. */
  function Parse(key: string): (r: Option<Symbol>)
    ensures r.Some? <==> key in Alphabet
    ensures r.Some? ==> Letter(r.value) == key
  {
    if key == "x" then Some(X)
    else if key == "a" then Some(A)
    else if key == "b" then Some(B)
    else if key == "y" then Some(Y)
    else None
  }

  /** Whether a raw `e.key` passes lower-casing and the alphabet filter, and as which key. */
  function Accept(rawKey: string): (r: Option<Symbol>)
    ensures r.Some? <==> ToLower(rawKey) in Alphabet
    ensures r.Some? ==> Letter(r.value) == ToLower(rawKey)
  {
    Parse(ToLower(rawKey))
  }

  /** Exactly the eight keys x, a, b, y, X, A, B, Y survive lower-casing and the alphabet filter. */
  lemma LowerCaseAccepts(rawKey: string)
    ensures Accept(rawKey).Some? <==> rawKey in ["x", "X", "a", "A", "b", "B", "y", "Y"]
  {
    if |rawKey| == 1 {
      assert rawKey == [rawKey[0]];
      ToLowerSingle(rawKey[0]);
    }
  }

  /** The secret code, as accepted keys. */
  const SecretCode: seq<Symbol> := [X, A, B, Y]

  // ---------------------------------------------------------------------------
  // The window and its comparison with the code
  // ---------------------------------------------------------------------------

  /** `s.slice(-4)`: the suffix of `s` of length min(|s|, 4). */
  function LastFour<T>(s: seq<T>): (r: seq<T>)
    ensures |r| == Min(|s|, WindowSize)
    ensures forall i :: 0 <= i < |r| ==> r[i] == s[|s| - |r| + i]
  {
    if |s| <= WindowSize then s else s[|s| - WindowSize..]
  }

  /** Sliding one more key into a window gives the window of the whole history plus that key. */
  lemma LastFourSlides<T>(s: seq<T>, k: T)
    ensures LastFour(LastFour(s) + [k]) == LastFour(s + [k])
  {
    if |s| > WindowSize {
      assert (s + [k])[|s| + 1 - WindowSize..] == (s[|s| - WindowSize..] + [k])[1..];
    }
  }

  /** The window's array of strings, as the component stores it. */
  function Letters(w: seq<Symbol>): (r: seq<string>)
    ensures |r| == |w|
    ensures forall i :: 0 <= i < |w| ==> r[i] == Letter(w[i])
  {
    if w == [] then [] else [Letter(w[0])] + Letters(w[1..])
  }

  /** `Array.prototype.join('')`: the concatenation of the parts. */
  function Join(parts: seq<string>): string
  {
    if parts == [] then "" else parts[0] + Join(parts[1..])
  }

  lemma {:induction false} JoinOfSingletons(parts: seq<string>)
    requires forall i :: 0 <= i < |parts| ==> |parts[i]| == 1
    ensures |Join(parts)| == |parts|
    ensures forall i :: 0 <= i < |parts| ==> Join(parts)[i] == parts[i][0]
  {
    if parts != [] {
      JoinOfSingletons(parts[1..]);
    }
  }

  /** Comparing the joined strings, as the component does, is comparing the windows. */
  lemma JoinComparesWindows(w: seq<Symbol>)
    ensures Join(Letters(w)) == Join(Letters(SecretCode)) <==> w == SecretCode
  {
    var ls, cs := Letters(w), Letters(SecretCode);
    JoinOfSingletons(ls);
    JoinOfSingletons(cs);
    if Join(ls) == Join(cs) {
      forall i | 0 <= i < |w| ensures w[i] == SecretCode[i] {
        assert Join(ls)[i] == Letter(w[i])[0];
        assert Join(cs)[i] == Letter(SecretCode[i])[0];
      }
    }
  }

  /** The handler's match test, which joins the window and the code into strings and compares those: true exactly when the window is the code. */
  method CodeEntered(w: seq<Symbol>) returns (b: bool)
    ensures b <==> w == SecretCode
  {
    JoinComparesWindows(w);
    b := Join(Letters(w)) == Join(Letters(SecretCode));
  }

  // ---------------------------------------------------------------------------
  // The detector as a function of the key presses
  // ---------------------------------------------------------------------------

  /** The part of the component state the key handler decides: the buffer and the unlock flag. */
  datatype Detector = Detector(sequence: seq<Symbol>, unlocked: bool)

  const Initial: Detector := Detector([], false)

  /**
   * One `keydown` event: the filter of `handleKeyPress` and the `setSequence`
   * updater. The component compares the joined strings; by JoinComparesWindows
   * that is comparing the windows, which is how it is written here.
   */
  function Step(d: Detector, rawKey: string): Detector
  {
    match Accept(rawKey)
    case Some(key) =>
      if d.unlocked then d
      else
        var newSeq := LastFour(d.sequence + [key]);
        Detector(newSeq, newSeq == SecretCode)
    case None => d
  }

  /**
   * What one key press can do: an unlocked detector and a filtered-out key are
   * left alone, the buffer never grows beyond four keys, and a press that
   * unlocks leaves the code in the buffer.
   */
  lemma StepInvariants(d: Detector, rawKey: string)
    ensures d.unlocked ==> Step(d, rawKey) == d
    ensures Accept(rawKey).None? ==> Step(d, rawKey) == d
    ensures |d.sequence| <= WindowSize ==> |Step(d, rawKey).sequence| <= WindowSize
    ensures Step(d, rawKey).unlocked && !d.unlocked ==> Step(d, rawKey).sequence == SecretCode
  {
  }

  /** The detector after the given key presses, in arrival order. */
  function Run(keys: seq<string>): Detector
  {
    if keys == [] then Initial else Step(Run(keys[..|keys| - 1]), keys[|keys| - 1])
  }

  /** The keys that pass lower-casing and the alphabet filter, in arrival order. */
  function Accepted(keys: seq<string>): seq<Symbol>
  {
    if keys == [] then []
    else
      var rest := Accepted(keys[..|keys| - 1]);
      match Accept(keys[|keys| - 1])
      case Some(key) => rest + [key]
      case None => rest
  }

  /** After the first `i` key presses, the last four accepted keys spell the code. */
  predicate MatchesAt(keys: seq<string>, i: nat)
    requires i <= |keys|
  {
    LastFour(Accepted(keys[..i])) == SecretCode
  }

  lemma RunSnoc(p: seq<string>, k: string)
    ensures Run(p + [k]) == Step(Run(p), k)
    ensures Accepted(p + [k]) == Accepted(p) + (if Accept(k).Some? then [Accept(k).value] else [])
  {
    assert (p + [k])[..|p|] == p;
  }

  /** Some prefix of the key presses (possibly all of them) ends with the code. */
  ghost predicate UnlockedBy(keys: seq<string>)
  {
    exists i :: 0 <= i <= |keys| && MatchesAt(keys, i)
  }

  lemma MatchesAtSnoc(p: seq<string>, k: string, i: nat)
    requires i <= |p|
    ensures MatchesAt(p + [k], i) == MatchesAt(p, i)
  {
    assert (p + [k])[..i] == p[..i];
  }

  lemma UnlockedByExtends(p: seq<string>, k: string)
    requires UnlockedBy(p)
    ensures UnlockedBy(p + [k])
  {
    var i :| 0 <= i <= |p| && MatchesAt(p, i);
    MatchesAtSnoc(p, k, i);
  }

  lemma UnlockedByEarlier(p: seq<string>, k: string)
    requires UnlockedBy(p + [k]) && !MatchesAt(p + [k], |p| + 1)
    ensures UnlockedBy(p)
  {
    var i :| 0 <= i <= |p| + 1 && MatchesAt(p + [k], i);
    MatchesAtSnoc(p, k, i);
  }

  lemma UnlockedBySnoc(p: seq<string>, k: string)
    ensures UnlockedBy(p + [k]) <==> UnlockedBy(p) || MatchesAt(p + [k], |p| + 1)
  {
    if UnlockedBy(p) {
      UnlockedByExtends(p, k);
    }
    if UnlockedBy(p + [k]) && !MatchesAt(p + [k], |p| + 1) {
      UnlockedByEarlier(p, k);
    }
  }

  /**
   * The buffer after any key presses: at most four keys; while locked, the
   * window of the last (at most four) accepted keys; once unlocked, the code.
   */
  lemma {:induction false} RunWindow(keys: seq<string>)
    ensures |Run(keys).sequence| <= WindowSize
    ensures !Run(keys).unlocked ==> Run(keys).sequence == LastFour(Accepted(keys))
    ensures Run(keys).unlocked ==> Run(keys).sequence == SecretCode
  {
    if keys != [] {
      var p, k := keys[..|keys| - 1], keys[|keys| - 1];
      assert keys == p + [k];
      RunWindow(p);
      RunSnoc(p, k);
      if !Run(p).unlocked && Accept(k).Some? {
        LastFourSlides(Accepted(p), Accept(k).value);
      }
    }
  }

  /** The detector unlocks exactly when some prefix of the key presses ends with the code. */
  lemma {:induction false} RunUnlocked(keys: seq<string>)
    ensures Run(keys).unlocked <==> UnlockedBy(keys)
  {
    if keys == [] {
      assert !MatchesAt(keys, 0);
    } else {
      var p, k := keys[..|keys| - 1], keys[|keys| - 1];
      assert keys == p + [k];
      RunUnlocked(p);
      RunWindow(p);
      RunSnoc(p, k);
      UnlockedBySnoc(p, k);
      assert keys[..|keys|] == keys;
      if !Run(p).unlocked {
        if Accept(k).Some? {
          LastFourSlides(Accepted(p), Accept(k).value);
        } else {
          assert p[..|p|] == p;
          assert !MatchesAt(p, |p|);
        }
      }
    }
  }

  /** Once unlocked, further key presses change nothing: the flag stays set and the buffer is frozen. */
  lemma {:induction false} UnlockIsPermanent(keys: seq<string>, more: seq<string>)
    requires Run(keys).unlocked
    ensures Run(keys + more) == Run(keys)
  {
    if more == [] {
      assert keys + more == keys;
    } else {
      var q, k := more[..|more| - 1], more[|more| - 1];
      UnlockIsPermanent(keys, q);
      assert keys + more == (keys + q) + [k] by {
        assert more == q + [k];
      }
      RunSnoc(keys + q, k);
    }
  }

  /** A key that does not lower-case into the alphabet leaves the buffer and the flag unchanged. */
  lemma OtherKeysIgnored(d: Detector, rawKey: string)
    requires rawKey !in ["x", "X", "a", "A", "b", "B", "y", "Y"]
    ensures Step(d, rawKey) == d
  {
    LowerCaseAccepts(rawKey);
  }

  /** The key press that unlocks is the one whose window equals the code, never an earlier one. */
  lemma UnlocksExactlyOnMatch(keys: seq<string>, rawKey: string)
    requires !Run(keys).unlocked
    ensures Run(keys + [rawKey]).unlocked <==> MatchesAt(keys + [rawKey], |keys| + 1)
  {
    RunUnlocked(keys);
    RunUnlocked(keys + [rawKey]);
    UnlockedBySnoc(keys, rawKey);
  }

  /** Each of the eight keys x, a, b, y and their capitals is accepted as its letter. */
  lemma AcceptsLetter(rawKey: string, key: Symbol)
    requires rawKey == Letter(key) || ToLower(rawKey) == Letter(key)
    ensures Accept(rawKey) == Some(key)
  {
    assert Parse(Letter(key)) == Some(key);
    if rawKey == Letter(key) {
      assert rawKey == [rawKey[0]];
      ToLowerSingle(rawKey[0]);
    }
  }

  /** After "a, b, x, a" the buffer slides: the fifth key "b" drops the oldest, and the sixth completes "x, a, b, y" and unlocks. */
  lemma SixthKeyUnlocks()
    ensures Step(Detector([A, B, X, A], false), "b") == Detector([B, X, A, B], false)
    ensures Step(Detector([B, X, A, B], false), "y") == Detector(SecretCode, true)
  {
    AcceptsLetter("b", B);
    AcceptsLetter("y", Y);
    assert LastFour([A, B, X, A] + [B]) == [B, X, A, B];
    assert LastFour([B, X, A, B] + [Y]) == SecretCode;
  }

  /** A locked detector and one of the four letters: the window slides and unlocks exactly on the code. */
  lemma LockedLetterStep(p: seq<string>, key: Symbol, w: seq<Symbol>)
    requires Run(p) == Detector(w, false)
    ensures Run(p + [Letter(key)]) == Detector(LastFour(w + [key]), LastFour(w + [key]) == SecretCode)
  {
    RunSnoc(p, Letter(key));
    AcceptsLetter(Letter(key), key);
  }

  /** From mount, the press a is buffered. */
  lemma MountA()
    ensures Run(["a"]) == Detector([A], false)
  {
    var mount: seq<string> := [];
    assert Run(mount) == Initial;
    LockedLetterStep(mount, A, []);
    assert mount + [Letter(A)] == ["a"];
  }

  /** From mount, the presses a, b are buffered. */
  lemma MountAB()
    ensures Run(["a", "b"]) == Detector([A, B], false)
  {
    MountA();
    LockedLetterStep(["a"], B, [A]);
    assert ["a"] + [Letter(B)] == ["a", "b"];
  }

  /** From mount, the presses a, b, x are buffered. */
  lemma MountABX()
    ensures Run(["a", "b", "x"]) == Detector([A, B, X], false)
  {
    MountAB();
    LockedLetterStep(["a", "b"], X, [A, B]);
    assert ["a", "b"] + [Letter(X)] == ["a", "b", "x"];
  }

  /** From mount, the presses a, b, x, a fill the buffer without unlocking. */
  lemma FirstFourKeysFromMount()
    ensures Run(["a", "b", "x", "a"]) == Detector([A, B, X, A], false)
  {
    MountABX();
    LockedLetterStep(["a", "b", "x"], A, [A, B, X]);
    assert ["a", "b", "x"] + [Letter(A)] == ["a", "b", "x", "a"];
  }

  /**
   * From mount, the fifth press b slides the oldest key out and leaves the egg
   * locked, and the sixth press y unlocks it; since an unlock is permanent, no
   * earlier press unlocked it either.
   */
  lemma SixthKeyUnlocksFromMount()
    ensures Run(["a", "b", "x", "a", "b"]) == Detector([B, X, A, B], false)
    ensures Run(["a", "b", "x", "a", "b", "y"]) == Detector(SecretCode, true)
  {
    FirstFourKeysFromMount();
    SixthKeyUnlocks();
    RunSnoc(["a", "b", "x", "a"], "b");
    assert ["a", "b", "x", "a"] + ["b"] == ["a", "b", "x", "a", "b"];
    RunSnoc(["a", "b", "x", "a", "b"], "y");
    assert ["a", "b", "x", "a", "b"] + ["y"] == ["a", "b", "x", "a", "b", "y"];
  }

  /** Upper-case keys count as their lower-case letters: "X, A, B, Y" is accepted, and "Y" after "x, a, b" unlocks. */
  lemma UpperCaseUnlocks()
    ensures Accept("X") == Some(X) && Accept("A") == Some(A) && Accept("B") == Some(B) && Accept("Y") == Some(Y)
    ensures Step(Detector([X, A, B], false), "Y") == Detector(SecretCode, true)
  {
    ToLowerSingle('X');
    ToLowerSingle('A');
    ToLowerSingle('B');
    ToLowerSingle('Y');
    AcceptsLetter("X", X);
    AcceptsLetter("A", A);
    AcceptsLetter("B", B);
    AcceptsLetter("Y", Y);
  }

  // ---------------------------------------------------------------------------
  // The component: state, the audio resource and the event handlers
  // ---------------------------------------------------------------------------

  /** The browser's `Audio` element, treated as an opaque playback resource. */
  class Audio {
    const src: string
    var loop: bool
    var volume: real
    var paused: bool
    var currentTime: real

    /** `new Audio(src)`: not looping, full volume, paused at position 0. */
    constructor (src: string)
      ensures this.src == src && !loop && volume == 1.0 && paused && currentTime == 0.0
    {
      this.src := src;
      loop := false;
      volume := 1.0;
      paused := true;
      currentTime := 0.0;
    }

    method Play()
      modifies this
      ensures !paused
      ensures loop == old(loop) && volume == old(volume) && currentTime == old(currentTime)
    {
      paused := false;
    }

    method Pause()
      modifies this
      ensures paused
      ensures loop == old(loop) && volume == old(volume) && currentTime == old(currentTime)
    {
      paused := true;
    }
  }

  class EasterEgg {
    /** `sequence`, as accepted keys (its strings are `Letters(sequence)`). */
    var sequence: seq<Symbol>
    var unlocked: bool
    var showAchievement: bool
    var isPlaying: bool
    /** `audioRef.current` */
    var audioRef: Audio?
    /** Whether the `keydown` listener is attached. */
    var listening: bool
    /** Every key delivered to the listener so far. */
    ghost var keys: seq<string>
    /** How many audio resources have been created. */
    ghost var audiosCreated: nat

    function Detect(): Detector
      reads this
    {
      Detector(sequence, unlocked)
    }

    ghost predicate Valid()
      reads this, audioRef
    {
      && Detect() == Run(keys)
      && showAchievement == unlocked
      && audiosCreated == (if unlocked then 1 else 0)
      && (!unlocked ==> !isPlaying)
      && (audioRef != null ==>
            && audiosCreated == 1
            && audioRef.src == AudioSource && audioRef.loop && audioRef.volume == AudioVolume
            && isPlaying == !audioRef.paused)
    }

    /** Mounting: empty buffer, locked, no audio, listener attached. */
    constructor ()
      ensures Valid() && listening && keys == []
      ensures Detect() == Initial && !showAchievement && !isPlaying && audioRef == null
    {
      sequence, unlocked, showAchievement, isPlaying := [], false, false, false;
      audioRef := null;
      listening := true;
      keys, audiosCreated := [], 0;
    }

    /** `handleKeyPress`: filter, slide the window, and on a match unlock and start the music once. */
    method HandleKeyPress(rawKey: string)
      requires Valid() && listening
      modifies this
      ensures Valid() && listening && keys == old(keys) + [rawKey]
      ensures Detect() == Step(old(Detect()), rawKey)
      ensures old(unlocked) ==> sequence == old(sequence)
      ensures unlocked && !old(unlocked) ==> fresh(audioRef) && isPlaying && audioRef.currentTime == 0.0
      ensures !(unlocked && !old(unlocked)) ==> audioRef == old(audioRef) && isPlaying == old(isPlaying)
    {
      ghost var next := Step(Detect(), rawKey);
      RunSnoc(keys, rawKey);
      keys := keys + [rawKey];
      var parsed := Parse(ToLower(rawKey));
      if parsed.Some? && !unlocked {
        var newSeq := LastFour(sequence + [parsed.value]);
        var matched := CodeEntered(newSeq);
        if matched {
          unlocked := true;
          showAchievement := true;
          if audioRef == null {
            StartMusic();
          }
        }
        sequence := newSeq;
      }
      assert Detect() == next;
    }

    /** The unlock branch's guarded audio set-up, run only while no track exists: create the looping track at volume 0.3 and play it. */
    method StartMusic()
      requires audioRef == null
      modifies this
      ensures fresh(audioRef) && audioRef.src == AudioSource && audioRef.loop && audioRef.volume == AudioVolume
      ensures !audioRef.paused && audioRef.currentTime == 0.0 && isPlaying && audiosCreated == old(audiosCreated) + 1
      ensures Detect() == old(Detect()) && showAchievement == old(showAchievement)
      ensures listening == old(listening) && keys == old(keys)
    {
      var a := new Audio(AudioSource);
      a.loop := true;
      a.volume := AudioVolume;
      a.Play();
      audioRef := a;
      isPlaying := true;
      audiosCreated := audiosCreated + 1;
    }

    /** `toggleMusic`: without a resource nothing happens; otherwise pause or play and flip `isPlaying`. */
    method ToggleMusic()
      requires Valid()
      modifies this, audioRef
      ensures Valid() && audioRef == old(audioRef) && listening == old(listening)
      ensures Detect() == old(Detect()) && keys == old(keys)
      ensures old(audioRef) == null ==> isPlaying == old(isPlaying)
      ensures old(audioRef) != null ==> isPlaying == !old(isPlaying) && audioRef.paused == !isPlaying
      ensures old(audioRef) != null ==> audioRef.currentTime == old(audioRef.currentTime)
    {
      if audioRef != null {
        if isPlaying {
          audioRef.Pause();
        } else {
          audioRef.Play();
        }
        isPlaying := !isPlaying;
      }
    }

    /** Unmounting: detach the listener; stop the audio, rewind it and drop the reference. */
    method Unmount()
      requires Valid()
      modifies this, audioRef
      ensures Valid() && !listening && audioRef == null
      ensures Detect() == old(Detect()) && keys == old(keys) && isPlaying == old(isPlaying)
      ensures old(audioRef) != null ==> old(audioRef).paused && old(audioRef).currentTime == 0.0
    {
      listening := false;
      if audioRef != null {
        audioRef.Pause();
        audioRef.currentTime := 0.0;
        audioRef := null;
      }
    }
  }
}
