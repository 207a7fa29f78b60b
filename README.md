# Enigma machine core in Dafny

This project models the orchestration core of an Enigma-style substitution
cipher, `enigma/machine/EnigmaMachine.java`. The machine holds three rotor
slots (0 = left, 2 = right), a reflector and a plugboard. Any of them may be
missing, and each can be swapped at run time. Encrypting a character does
three things in order:

- it checks that every part is present;
- for an ASCII letter only, it rotates the right rotor once;
- it sends the letter through plugboard, the rotors right to left, the
  reflector, the rotors left to right, and the plugboard again.

Encrypting a string applies that step to each character from left to right.
The rotor offsets carry over from one character to the next.

The project has three modules:

- `Pipeline` (`pipeline.dfy`) is the signal path as pure functions. A rotor is
  its `RotorWiring`: two translations, each a function of the rotor's offset
  and a character. The reflector and the plugboard are character maps. The
  three offsets form one `Offsets` value. `Scramble` is the substitution
  chain, `EncryptOne` is one character's step, and `EncryptAll` is the left
  fold of that step over a string. The lemmas about them live here:
  - how the fold steps the rotors, and its per-position form;
  - that the chain is self-inverse, so decryption is encryption;
  - that no letter encrypts to itself when the reflector has no fixed letter.
- `Components` (`components.dfy`) holds the parts as classes:
  - `Rotor`: an immutable wiring, a mutable `offset` in `[0, 26)`, a `Rotate`
    that adds one modulo 26, and the `connection` back-link;
  - `Reflector` and `Plugboard`: one fixed character map each.
- `Machine` (`machine.dfy`) holds `EnigmaMachine`, a class with a nullable
  rotor array, reflector and plugboard. Its methods update these in place.
  `EncryptChar` and `EncryptString` are proved against `Scramble`,
  `EncryptOne` and `EncryptAll`. The source's exceptions become a
  `Result` value with the error `IllegalArgument` or `IllegalState`.

The same `Rotor` object may sit in two slots. When the right rotor also sits
in another slot, stepping it moves that slot too. So the functional contracts
of the encryption methods are stated under `RightRotorUnshared()`. What holds
whatever the sharing is stated unconditionally: the failure cases, the
pass-through of non-letters, and that the right rotor advances once per
letter.

## Model

| member | source | states |
|---|---|---|
| `Pipeline.NextPosition` | enigma/machine/EnigmaMachine.java:108 | One rotation moves an offset to the next position: one more, except that 25 wraps to 0. |
| `Pipeline.RotatedWraps` | enigma/machine/EnigmaMachine.java:108 | `n` successive rotations add `n` to the offset modulo 26. |
| `Pipeline.Step` | enigma/machine/EnigmaMachine.java:108 | Definition, no contract: a letter's step rotates only the right rotor (slot 2) by one position; the left and middle offsets are kept. |
| `Pipeline.Scramble` | enigma/machine/EnigmaMachine.java:110-118 | Definition, no contract: the chain plugboard, right, middle and left rotor inbound, reflector, left, middle and right rotor outbound, plugboard, each rotor at its current offset. |
| `Pipeline.EncryptOne` | enigma/machine/EnigmaMachine.java:106-124 | Definition, no contract: a letter first steps the rotors and is then scrambled at the new offsets; any other character comes back unchanged with the offsets untouched. |
| `Pipeline.EncryptAll` | enigma/machine/EnigmaMachine.java:127-136 | Encrypting a string yields a string of the same length. |
| `Pipeline.EncryptAllNext` | enigma/machine/EnigmaMachine.java:131-133 | The step of `EncryptString`'s loop invariant: the fold's own recurrence, restated at the prefix `s[..i + 1]`, so that one more iteration appends `EncryptOne` of `s[i]` at the offsets the earlier characters left. |
| `Pipeline.EncryptAllPrefix` | enigma/machine/EnigmaMachine.java:131-133 | The output for a prefix of the input is the same prefix of the output. |
| `Pipeline.EncryptAllOffsets` | enigma/machine/EnigmaMachine.java:106-108 | After a string, the left and middle rotors are unmoved. The right rotor has rotated once per letter of the string. |
| `Pipeline.EncryptAllAt` | enigma/machine/EnigmaMachine.java:127-136 | `result[i]` is `EncryptOne` of `input[i]` at the offsets left by `input[..i]`. Those offsets are the starting ones, with the right rotor rotated once per letter before `i`. |
| `Pipeline.ScrambleLetter` | enigma/machine/EnigmaMachine.java:110-118 | If the rotors' translations are mutually inverse bijections of the letters and the reflector and plugboard are involutions, a letter comes out as a letter. |
| `Pipeline.ScrambleSelfInverse` | enigma/machine/EnigmaMachine.java:110-118 | Under the same hypotheses, the chain undoes itself at fixed offsets: scrambling a scrambled letter gives the letter back. |
| `Pipeline.ScrambleNoFixedLetter` | enigma/machine/EnigmaMachine.java:110-118 | If, in addition, the reflector pairs no letter with itself, no letter is scrambled to itself. |
| `Pipeline.EncryptOneRoundTrip` | enigma/machine/EnigmaMachine.java:106-124 | If the reciprocity hypotheses hold at every offset, encrypting one character's output from the same offsets gives the character back and reaches the same offsets. This covers non-letters too. |
| `Pipeline.EncryptAllRoundTrip` | enigma/machine/EnigmaMachine.java:127-136 | If the reciprocity hypotheses hold at every offset, re-encrypting a ciphertext from the same starting offsets gives back the plaintext and ends in the same rotor state. |
| `Pipeline.EncryptAllNoFixedLetter` | enigma/machine/EnigmaMachine.java:127-136 | Under the same hypotheses and with a fixed-point-free reflector, every letter of the plaintext differs from the ciphertext character at the same position. |
| `Components.Rotor.Rotate` | enigma/machine/EnigmaMachine.java:108 | Rotating a rotor moves its offset to `NextPosition` of the old offset. Nothing else changes. |
| `Components.Rotor.SetConnection` | enigma/machine/EnigmaMachine.java:20-21 | The rotor records the given rotor as its left neighbour. Nothing else changes. |
| `Machine.EnigmaMachine.Empty` | enigma/machine/EnigmaMachine.java:45-47 | The empty machine has no rotor array, no reflector and no plugboard. |
| `Machine.EnigmaMachine.Create` | enigma/machine/EnigmaMachine.java:31-40 | Fails with `IllegalArgument` exactly when a rotor array is given whose length is not 3. Otherwise it returns a fresh machine that holds the given array (or none), reflector and plugboard. |
| `Machine.EnigmaMachine.ConnectRotors` | enigma/machine/EnigmaMachine.java:18-23 | Links only when all three slots are filled: slot 1 then points to slot 0, and slot 2 to slot 1 unless it is the same rotor. With an empty slot, no link changes. In every case, a rotor in neither slot 1 nor slot 2 keeps its link. |
| `Machine.EnigmaMachine.SwitchRotor` | enigma/machine/EnigmaMachine.java:59-64 | Allocates a fresh three-slot array when there is none, otherwise keeps the array. Writes only slot `i`, so `GetRotor(i)` returns the new rotor and the other slots keep their rotors. Re-links the rotors when all slots are filled. Only the links of slots 1 and 2 change: every other rotor, including the one taken out of slot `i` and the left rotor when it sits in no other slot, keeps its link. |
| `Machine.EnigmaMachine.SwitchReflector` | enigma/machine/EnigmaMachine.java:76-78 | Assigns the reflector field only. `GetReflector()` then returns the new reflector. |
| `Machine.EnigmaMachine.SwitchPlugboard` | enigma/machine/EnigmaMachine.java:90-92 | Assigns the plugboard field only. `GetPlugboard()` then returns the new plugboard. |
| `Machine.EnigmaMachine.EncryptChar` | enigma/machine/EnigmaMachine.java:99-125 | With a part missing: `IllegalState`, and no offset changes. A non-letter comes back unchanged, and no offset changes. For a letter, only the right rotor rotates, exactly once, and the result is `Scramble` at the new offsets. With an unshared right rotor, result and new offsets are `EncryptOne` of the old offsets. |
| `Machine.EnigmaMachine.EncryptString` | enigma/machine/EnigmaMachine.java:127-136 | Fails with `IllegalState` exactly when the input is non-empty and a part is missing. Whenever a part is missing, including for an empty input, no offset changes. Otherwise the output has the input's length and the right rotor has rotated once per letter. With an unshared right rotor, output and new offsets are `EncryptAll` of the old offsets. |

## Left out

- `Rotor.java`, `Reflector.java` and `Plugboard.java` are not part of this
  model. Their wiring tables, their offset arithmetic inside the translations
  and their upper/lower case handling are represented by arbitrary functions
  (`RotorWiring`, `Reflector.pairing`, `Plugboard.pairing`). The only
  assumption about these is the 26-position offset and its rotation.
- The reciprocity lemmas assume what the parts are meant to guarantee and the
  machine does not check (`ReciprocalAt`, `Reciprocal`, `FixedPointFree`).
  Those predicates say that the rotor translations are mutually inverse on
  the letters, and that the reflector and plugboard are involutions that keep
  letters letters.
- The back-link made by `setConnection` is recorded as a field. Nothing reads
  it, and no cascading or turnover rotation is modelled, because the machine
  only ever rotates the right rotor.
- A machine built without a rotor array throws `NullPointerException` in
  `encrypt`, and a slot index outside 0..2 throws
  `ArrayIndexOutOfBoundsException`. Both are preconditions here (`rotor !=
  null`, `0 <= i < 3`). `EncryptString` needs `rotor != null` only for a
  non-empty input, because the source never calls `encrypt(char)` on an
  empty string.
- Machine.EnigmaMachine.EncryptChar: its exact result and new offsets as
  `EncryptOne` are stated only when the right rotor is in no other slot. With
  a shared rotor, the source also moves the other slot's offset.
- Machine.EnigmaMachine.EncryptString: its exact output as `EncryptAll` is
  stated only when the right rotor is in no other slot, for the same reason.
  It builds the result as a sequence, not as a `char[]` turned into a
  `String`.
- Getters (`GetRotor`, `GetReflector`, `GetPlugboard`) are plain reads. What
  they return is stated in the contracts of the switch methods.
- The commented-out debug output is I/O and is not modelled. The
  thread-safety of a shared machine is not modelled either.
