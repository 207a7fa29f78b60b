/**
 * The Enigma machine: three rotor slots (0 = left, 2 = right), a reflector
 * and a plugboard, any of which may be missing, and the two encryption
 * operations that drive the parts.
 */
module Machine {
  import opened Pipeline
  import opened Components

  datatype Result<T, E> = Success(value: T) | Failure(error: E)

  /** The two exceptions the machine throws. */
  datatype MachineError = IllegalArgument | IllegalState

  class EnigmaMachine {
    var rotor: array?<Rotor?>
    var reflector: Reflector?
    var plugboard: Plugboard?

    /** A rotor array, when there is one, has exactly three slots. */
    ghost predicate Valid()
      reads this
    {
      rotor != null ==> rotor.Length == 3
    }

    /** The rotors in the slots. */
    ghost function Slots(): set<Rotor>
      requires Valid()
      reads this, rotor
    {
      if rotor == null then {}
      else
        (if rotor[0] != null then {rotor[0]} else {})
        + (if rotor[1] != null then {rotor[1]} else {})
        + (if rotor[2] != null then {rotor[2]} else {})
    }

    /** The rotor in the right slot, as a set that is empty when there is none. */
    ghost function RightSlot(): set<Rotor>
      requires Valid()
      reads this, rotor
    {
      if rotor != null && rotor[2] != null then {rotor[2]} else {}
    }

    /** All three rotor slots are filled. */
    predicate RotorsPresent()
      requires Valid() && rotor != null
      reads this, rotor
    {
      rotor[0] != null && rotor[1] != null && rotor[2] != null
    }

    /** Every part is present, so that the machine can encrypt. */
    predicate Complete()
      requires Valid() && rotor != null
      reads this, rotor
    {
      RotorsPresent() && plugboard != null && reflector != null
    }

    /** The right rotor is not also in another slot, so stepping it moves no other slot. */
    predicate RightRotorUnshared()
      requires Valid() && rotor != null
      reads this, rotor
    {
      rotor[2] != rotor[0] && rotor[2] != rotor[1]
    }

    /** The right and middle rotors point at their left neighbours. */
    ghost predicate Linked()
      requires Valid() && rotor != null && RotorsPresent()
      reads this, rotor, rotor[0], rotor[1], rotor[2]
    {
      rotor[1].connection == rotor[0]
      && (rotor[2] != rotor[1] ==> rotor[2].connection == rotor[1])
    }

    /** The fixed parts of a complete machine. */
    function PartsOf(): Parts
      requires Valid() && rotor != null && Complete()
      reads this, rotor
    {
      Parts(rotor[0].wiring, rotor[1].wiring, rotor[2].wiring,
            reflector.pairing, plugboard.pairing)
    }

    /** The offsets of the three rotors. */
    ghost function OffsetsOf(): Offsets
      requires Valid() && rotor != null && RotorsPresent()
      reads this, rotor, rotor[0], rotor[1], rotor[2]
    {
      Offsets(rotor[0].offset, rotor[1].offset, rotor[2].offset)
    }

    /** The machine with no parts. */
    constructor Empty()
      ensures Valid() && rotor == null && reflector == null && plugboard == null
    {
      rotor := null;
      reflector := null;
      plugboard := null;
    }

    /**
     * Builds a machine from its parts. A rotor array of any length but three
     * is refused; a missing rotor array leaves the machine without one. The
     * array is shared with the caller, not copied.
     */
    static method Create(rotors: array?<Rotor?>, reflector: Reflector?, plugboard: Plugboard?)
      returns (res: Result<EnigmaMachine, MachineError>)
      ensures res.Failure? <==> rotors != null && rotors.Length != 3
      ensures res.Failure? ==> res.error == IllegalArgument
      ensures res.Success? ==>
                && fresh(res.value) && res.value.Valid()
                && res.value.rotor == rotors
                && res.value.reflector == reflector
                && res.value.plugboard == plugboard
    {
      if rotors != null && rotors.Length != 3 {
        return Failure(IllegalArgument);
      }
      var m := new EnigmaMachine.Empty();
      m.rotor := rotors;
      m.reflector := reflector;
      m.plugboard := plugboard;
      return Success(m);
    }

    function GetRotor(i: int): Rotor?
      requires Valid() && rotor != null && 0 <= i < 3
      reads this, rotor
    {
      rotor[i]
    }

    function GetReflector(): Reflector?
      reads this
    {
      reflector
    }

    function GetPlugboard(): Plugboard?
      reads this
    {
      plugboard
    }

    /**
     * Once all three slots are filled, links the right rotor to the middle
     * one and the middle rotor to the left one.
     */
    method ConnectRotors()
      requires Valid() && rotor != null
      modifies Slots()`connection
      ensures RotorsPresent() ==> Linked()
      ensures RotorsPresent() && rotor[0] != rotor[1] && rotor[0] != rotor[2] ==>
                rotor[0].connection == old(rotor[0].connection)
      ensures !RotorsPresent() ==> forall r :: r in Slots() ==> r.connection == old(r.connection)
      ensures forall x :: x in Slots() && x != rotor[1] && x != rotor[2] ==>
                x.connection == old(x.connection)
    {
      if rotor[0] != null && rotor[1] != null && rotor[2] != null {
        rotor[2].SetConnection(rotor[1]);
        rotor[1].SetConnection(rotor[0]);
      }
    }

    /**
     * Puts `r` into slot `i`, first giving the machine a rotor array of three
     * empty slots if it has none, then re-links the rotors.
     */
    method SwitchRotor(i: int, r: Rotor?)
      requires Valid() && 0 <= i < 3
      modifies this`rotor, rotor, Slots()`connection, (if r != null then {r} else {})`connection
      ensures Valid() && rotor != null
      ensures old(rotor) != null ==> rotor == old(rotor)
      ensures old(rotor) == null ==> fresh(rotor)
      ensures GetRotor(i) == r
      ensures forall j :: 0 <= j < 3 && j != i ==>
                rotor[j] == (if old(rotor) == null then null else old(rotor[j]))
      ensures RotorsPresent() ==> Linked()
      ensures !RotorsPresent() ==> forall x :: x in old(Slots()) ==> x.connection == old(x.connection)
      ensures !RotorsPresent() && r != null ==> r.connection == old(r.connection)
      ensures forall x :: x in old(Slots()) + (if r != null then {r} else {}) && x != rotor[1] && x != rotor[2] ==>
                x.connection == old(x.connection)
    {
      if rotor == null {
        rotor := new Rotor?[3](_ => null);
      }
      rotor[i] := r;
      ConnectRotors();
    }

    /** Replaces the reflector and nothing else. */
    method SwitchReflector(r: Reflector?)
      modifies this`reflector
      ensures reflector == r && GetReflector() == r
    {
      reflector := r;
    }

    /** Replaces the plugboard and nothing else. */
    method SwitchPlugboard(p: Plugboard?)
      modifies this`plugboard
      ensures plugboard == p && GetPlugboard() == p
    {
      plugboard := p;
    }

    /**
     * Encrypts one character. Fails before touching any rotor when a part is
     * missing; passes a non-letter through without stepping; otherwise steps
     * the right rotor and sends the letter through the substitution chain at
     * the new offsets.
     */
    method EncryptChar(input: char) returns (res: Result<char, MachineError>)
      requires Valid() && rotor != null
      modifies RightSlot()`offset
      ensures !Complete() ==> res == Failure(IllegalState)
      ensures !(Complete() && IsLetter(input)) ==>
                forall r :: r in RightSlot() ==> r.offset == old(r.offset)
      ensures Complete() && !IsLetter(input) ==> res == Success(input)
      ensures Complete() && IsLetter(input) ==>
                && rotor[2].offset == NextPosition(old(rotor[2].offset))
                && res == Success(Scramble(PartsOf(), OffsetsOf(), input))
      ensures Complete() && RightRotorUnshared() ==>
                && (res.value, OffsetsOf()) == EncryptOne(PartsOf(), old(OffsetsOf()), input)
    {
      if rotor[0] == null || rotor[1] == null || rotor[2] == null {
        return Failure(IllegalState);
      }
      if plugboard == null || reflector == null {
        return Failure(IllegalState);
      }
      if IsLetter(input) {
        rotor[2].Rotate();
        var c := plugboard.Map(input);
        c := rotor[0].TranslateRightToLeft(rotor[1].TranslateRightToLeft(rotor[2].TranslateRightToLeft(c)));
        c := reflector.Map(c);
        c := rotor[2].TranslateLeftToRight(rotor[1].TranslateLeftToRight(rotor[0].TranslateLeftToRight(c)));
        c := plugboard.Map(c);
        return Success(c);
      }
      return Success(input);
    }

    /**
     * Encrypts a string one character at a time from left to right, each
     * character seeing the rotor offsets the previous ones left behind.
     */
    method EncryptString(input: string) returns (res: Result<string, MachineError>)
      requires Valid() && (|input| > 0 ==> rotor != null)
      modifies RightSlot()`offset
      ensures res.Failure? <==> |input| > 0 && !Complete()
      ensures res.Failure? ==>
                && res.error == IllegalState
                && forall r :: r in RightSlot() ==> r.offset == old(r.offset)
      ensures res.Success? ==> |res.value| == |input|
      ensures !(rotor != null && Complete()) ==>
                forall r :: r in RightSlot() ==> r.offset == old(r.offset)
      ensures rotor != null && Complete() ==>
                rotor[2].offset == Rotated(old(rotor[2].offset), LetterCount(input))
      ensures rotor != null && Complete() && RightRotorUnshared() ==>
                (res.value, OffsetsOf()) == EncryptAll(PartsOf(), old(OffsetsOf()), input)
    {
      var result: string := [];
      ghost var complete := rotor != null && Complete();
      ghost var unshared := complete && RightRotorUnshared();
      ghost var plain := RotorWiring((k, c) => c, (k, c) => c);
      ghost var parts := if complete then PartsOf() else Parts(plain, plain, plain, c => c, c => c);
      ghost var start := if complete then OffsetsOf() else Offsets(0, 0, 0);
      ghost var right := if complete then rotor[2] else null;
      ghost var startRight := if complete then rotor[2].offset else 0;
      var i := 0;
      while i < |input|
        invariant 0 <= i <= |input| && |result| == i
        invariant i > 0 ==> complete
        invariant i == 0 ==> forall r :: r in RightSlot() ==> r.offset == old(r.offset)
        invariant complete ==> right.offset == Rotated(startRight, LetterCount(input[..i]))
        invariant unshared ==>
                    (result, OffsetsOf()) == EncryptAll(parts, start, input[..i])
      {
        var c := EncryptChar(input[i]);
        if c.Failure? {
          return Failure(c.error);
        }
        result := result + [c.value];
        if complete {
          LetterCountNext(input, i);
        }
        if unshared {
          EncryptAllNext(parts, start, input, i);
        }
        i := i + 1;
      }
      assert input[..i] == input;
      assert complete ==> PartsOf() == parts;
      return Success(result);
    }
  }
}
