/**
 * The signal path of the machine as pure functions over values.
 *
 * A rotor is represented by its two offset-dependent translations, the
 * reflector and the plugboard by a character map each. The rotor offsets of
 * the three slots are bundled into one `Offsets` value, so that encrypting a
 * character is a transition from one `Offsets` to the next.
 */
module Pipeline {

  /** Size of the alphabet, and hence the period of a rotor's offset. */
  const AlphabetSize := 26

  /** A rotor offset. */
  type Position = k: int | 0 <= k < AlphabetSize

  /** The characters the machine treats as letters: ASCII 'A'..'Z' and 'a'..'z'. */
  predicate IsLetter(c: char) {
    ('A' <= c <= 'Z') || ('a' <= c <= 'z')
  }

  /** What rotating a rotor does to its offset: one step forward, wrapping at 26. */
  function NextPosition(k: Position): (r: Position)
    ensures k < AlphabetSize - 1 ==> r == k + 1
    ensures k == AlphabetSize - 1 ==> r == 0
  {
    (k + 1) % AlphabetSize
  }

  /**
   * The wiring of a rotor, seen from outside: the translation used on the
   * inbound pass and the one used on the outbound pass, each a function of the
   * rotor's current offset.
   */
  datatype RotorWiring = RotorWiring(rightToLeft: (Position, char) -> char,
                                     leftToRight: (Position, char) -> char)

  /** Everything of a machine that does not change while it encrypts. */
  datatype Parts = Parts(left: RotorWiring, middle: RotorWiring, right: RotorWiring,
                         reflect: char -> char, plug: char -> char)

  /** The offsets of the left (slot 0), middle (slot 1) and right (slot 2) rotor. */
  datatype Offsets = Offsets(left: Position, middle: Position, right: Position)

  /** The stepping rule: only the rightmost rotor advances. */
  function Step(o: Offsets): Offsets {
    o.(right := NextPosition(o.right))
  }

  /**
   * The substitution chain for one letter at fixed offsets: plugboard, the
   * rotors right to left, the reflector, the rotors left to right, plugboard.
   */
  function Scramble(p: Parts, o: Offsets, c: char): char {
    var inbound := p.left.rightToLeft(o.left,
                     p.middle.rightToLeft(o.middle,
                       p.right.rightToLeft(o.right, p.plug(c))));
    var outbound := p.right.leftToRight(o.right,
                      p.middle.leftToRight(o.middle,
                        p.left.leftToRight(o.left, p.reflect(inbound))));
    p.plug(outbound)
  }

  /**
   * Encrypting one character: a letter first steps the right rotor and is
   * then scrambled at the new offsets; any other character is passed through
   * and leaves the offsets alone.
   */
  function EncryptOne(p: Parts, o: Offsets, c: char): (char, Offsets) {
    if IsLetter(c) then
      var o' := Step(o);
      (Scramble(p, o', c), o')
    else
      (c, o)
  }

  /**
   * Encrypting a string: the left fold of `EncryptOne` over it, threading the
   * offsets from each character to the next.
   */
  function EncryptAll(p: Parts, o: Offsets, s: string): (r: (string, Offsets))
    ensures |r.0| == |s|
  {
    if s == [] then ([], o)
    else
      var before := EncryptAll(p, o, s[..|s| - 1]);
      var last := EncryptOne(p, before.1, s[|s| - 1]);
      (before.0 + [last.0], last.1)
  }

  /** Encrypting one more character of `s` extends the fold by one step. */
  lemma EncryptAllNext(p: Parts, o: Offsets, s: string, i: nat)
    requires i < |s|
    ensures EncryptAll(p, o, s[..i + 1])
         == (EncryptAll(p, o, s[..i]).0 + [EncryptOne(p, EncryptAll(p, o, s[..i]).1, s[i]).0],
             EncryptOne(p, EncryptAll(p, o, s[..i]).1, s[i]).1)
  {
    assert s[..i + 1][..i] == s[..i];
  }

  /** The number of letters in `s`. */
  function LetterCount(s: string): (n: nat)
    ensures n <= |s|
  {
    if s == [] then 0
    else LetterCount(s[..|s| - 1]) + (if IsLetter(s[|s| - 1]) then 1 else 0)
  }

  /** Counting one more character of `s` adds one exactly when it is a letter. */
  lemma LetterCountNext(s: string, i: nat)
    requires i < |s|
    ensures LetterCount(s[..i + 1]) == LetterCount(s[..i]) + (if IsLetter(s[i]) then 1 else 0)
  {
    assert s[..i + 1][..i] == s[..i];
  }

  /* ---------------------------------------------------------------------- */
  /* Stepping and the fold                                                  */
  /* ---------------------------------------------------------------------- */

  lemma WrapSucc(m: nat)
    ensures (m + 1) % AlphabetSize
         == if m % AlphabetSize == AlphabetSize - 1 then 0 else m % AlphabetSize + 1
  {
  }

  /** The offset reached from `k` by `n` rotations. */
  function Rotated(k: Position, n: nat): Position {
    if n == 0 then k else NextPosition(Rotated(k, n - 1))
  }

  /** `n` rotations add `n` to the offset, wrapping around. */
  lemma {:induction false} RotatedWraps(k: Position, n: nat)
    ensures Rotated(k, n) == (k + n) % AlphabetSize
  {
    if n > 0 {
      var prev := Rotated(k, n - 1);
      RotatedWraps(k, n - 1);
      WrapSucc(k + n - 1);
      if prev == AlphabetSize - 1 {
        assert Rotated(k, n) == 0;
      } else {
        assert Rotated(k, n) == prev + 1;
      }
    }
  }

  /**
   * After a string is encrypted, the left and middle rotors are where they
   * started and the right rotor has advanced once per letter.
   */
  lemma {:induction false} EncryptAllOffsets(p: Parts, o: Offsets, s: string)
    ensures EncryptAll(p, o, s).1 == Offsets(o.left, o.middle, Rotated(o.right, LetterCount(s)))
  {
    if s != [] {
      EncryptAllOffsets(p, o, s[..|s| - 1]);
    }
  }

  /** The output for a prefix of the input is the prefix of the output. */
  lemma {:induction false} EncryptAllPrefix(p: Parts, o: Offsets, s: string, i: nat)
    requires i <= |s|
    ensures EncryptAll(p, o, s).0[..i] == EncryptAll(p, o, s[..i]).0
  {
    if i < |s| {
      var init := s[..|s| - 1];
      EncryptAllPrefix(p, o, init, i);
      assert init[..i] == s[..i];
    } else {
      assert s[..i] == s;
    }
  }

  /**
   * Each output character is `EncryptOne` of the input character at the
   * offsets left by everything before it; those offsets differ from the
   * starting ones only in the right rotor, which has advanced once per
   * earlier letter.
   */
  lemma EncryptAllAt(p: Parts, o: Offsets, s: string, i: nat)
    requires i < |s|
    ensures EncryptAll(p, o, s).0[i] == EncryptOne(p, EncryptAll(p, o, s[..i]).1, s[i]).0
    ensures EncryptAll(p, o, s[..i]).1 == Offsets(o.left, o.middle, Rotated(o.right, LetterCount(s[..i])))
  {
    EncryptAllPrefix(p, o, s, i + 1);
    assert s[..i + 1][..i] == s[..i];
    EncryptAllOffsets(p, o, s[..i]);
  }

  /* ---------------------------------------------------------------------- */
  /* Reciprocity                                                            */
  /* ---------------------------------------------------------------------- */

  /** At offset `k`, the two translations of `w` undo each other on the letter `c`. */
  ghost predicate InverseOn(w: RotorWiring, k: Position, c: char) {
    IsLetter(c) ==>
      && IsLetter(w.rightToLeft(k, c))
      && IsLetter(w.leftToRight(k, c))
      && w.leftToRight(k, w.rightToLeft(k, c)) == c
      && w.rightToLeft(k, w.leftToRight(k, c)) == c
  }

  /** At offset `k`, the two translations of `w` are mutually inverse bijections of the letters. */
  ghost predicate InverseAt(w: RotorWiring, k: Position) {
    forall c :: InverseOn(w, k, c)
  }

  /** `f` maps the letter `c` to a letter and back again. */
  ghost predicate InvolutiveOn(f: char -> char, c: char) {
    IsLetter(c) ==> IsLetter(f(c)) && f(f(c)) == c
  }

  /** `f` maps letters to letters and undoes itself on them. */
  ghost predicate Involutive(f: char -> char) {
    forall c :: InvolutiveOn(f, c)
  }

  /** `f` sends no letter to itself. */
  ghost predicate FixedPointFree(f: char -> char) {
    forall c :: IsLetter(c) ==> f(c) != c
  }

  /** The hypotheses on the components under which the chain is its own inverse at `o`. */
  ghost predicate ReciprocalAt(p: Parts, o: Offsets) {
    && InverseAt(p.left, o.left)
    && InverseAt(p.middle, o.middle)
    && InverseAt(p.right, o.right)
    && Involutive(p.reflect)
    && Involutive(p.plug)
  }

  /** The same hypotheses at every rotor position. */
  ghost predicate Reciprocal(p: Parts) {
    forall o: Offsets :: ReciprocalAt(p, o)
  }

  /** The chain sends letters to letters. */
  lemma ScrambleLetter(p: Parts, o: Offsets, c: char)
    requires ReciprocalAt(p, o) && IsLetter(c)
    ensures IsLetter(Scramble(p, o, c))
  {
    var x := p.plug(c);
    assert InvolutiveOn(p.plug, c);
    var a := p.right.rightToLeft(o.right, x);
    assert InverseOn(p.right, o.right, x);
    var b := p.middle.rightToLeft(o.middle, a);
    assert InverseOn(p.middle, o.middle, a);
    var d := p.left.rightToLeft(o.left, b);
    assert InverseOn(p.left, o.left, b);
    var e := p.reflect(d);
    assert InvolutiveOn(p.reflect, d);
    var f := p.left.leftToRight(o.left, e);
    assert InverseOn(p.left, o.left, e);
    var g := p.middle.leftToRight(o.middle, f);
    assert InverseOn(p.middle, o.middle, f);
    var h := p.right.leftToRight(o.right, g);
    assert InverseOn(p.right, o.right, g);
    assert InvolutiveOn(p.plug, h);
  }

  /**
   * At fixed offsets the chain undoes itself: scrambling a scrambled letter
   * gives the letter back.
   */
  lemma ScrambleSelfInverse(p: Parts, o: Offsets, c: char)
    requires ReciprocalAt(p, o) && IsLetter(c)
    ensures Scramble(p, o, Scramble(p, o, c)) == c
  {
    // the inbound and outbound legs of the first pass
    var x := p.plug(c);
    assert InvolutiveOn(p.plug, c);
    var a := p.right.rightToLeft(o.right, x);
    assert InverseOn(p.right, o.right, x);
    var b := p.middle.rightToLeft(o.middle, a);
    assert InverseOn(p.middle, o.middle, a);
    var d := p.left.rightToLeft(o.left, b);
    assert InverseOn(p.left, o.left, b);
    var e := p.reflect(d);
    assert InvolutiveOn(p.reflect, d);
    var f := p.left.leftToRight(o.left, e);
    assert InverseOn(p.left, o.left, e);
    var g := p.middle.leftToRight(o.middle, f);
    assert InverseOn(p.middle, o.middle, f);
    var h := p.right.leftToRight(o.right, g);
    assert InverseOn(p.right, o.right, g);
    assert InvolutiveOn(p.plug, h);
    // the second pass retraces the first one backwards
    assert Scramble(p, o, c) == p.plug(h);
    assert p.plug(p.plug(h)) == h;
    assert p.left.rightToLeft(o.left, p.middle.rightToLeft(o.middle, p.right.rightToLeft(o.right, h))) == e;
    assert p.reflect(e) == d;
    assert p.right.leftToRight(o.right, p.middle.leftToRight(o.middle, p.left.leftToRight(o.left, d))) == x;
  }

  /**
   * With a reflector that pairs no letter with itself, no letter is ever
   * encrypted to itself.
   */
  lemma ScrambleNoFixedLetter(p: Parts, o: Offsets, c: char)
    requires ReciprocalAt(p, o) && FixedPointFree(p.reflect) && IsLetter(c)
    ensures Scramble(p, o, c) != c
  {
    var x := p.plug(c);
    assert InvolutiveOn(p.plug, c);
    var a := p.right.rightToLeft(o.right, x);
    assert InverseOn(p.right, o.right, x);
    var b := p.middle.rightToLeft(o.middle, a);
    assert InverseOn(p.middle, o.middle, a);
    var d := p.left.rightToLeft(o.left, b);
    assert InverseOn(p.left, o.left, b);
    var e := p.reflect(d);
    assert InvolutiveOn(p.reflect, d);
    var f := p.left.leftToRight(o.left, e);
    assert InverseOn(p.left, o.left, e);
    var g := p.middle.leftToRight(o.middle, f);
    assert InverseOn(p.middle, o.middle, f);
    var h := p.right.leftToRight(o.right, g);
    assert InverseOn(p.right, o.right, g);
    assert InvolutiveOn(p.plug, h);
  }

  /** Encrypting the output of `EncryptOne` from the same offsets restores the input and reaches the same offsets. */
  lemma EncryptOneRoundTrip(p: Parts, o: Offsets, c: char)
    requires Reciprocal(p)
    ensures EncryptOne(p, o, EncryptOne(p, o, c).0) == (c, EncryptOne(p, o, c).1)
  {
    if IsLetter(c) {
      assert ReciprocalAt(p, Step(o));
      ScrambleLetter(p, Step(o), c);
      ScrambleSelfInverse(p, Step(o), c);
    }
  }

  /**
   * Decryption is encryption: running the ciphertext through a machine reset
   * to the same starting offsets gives back the plaintext, and leaves the
   * rotors where the encryption left them.
   */
  lemma {:induction false} EncryptAllRoundTrip(p: Parts, o: Offsets, s: string)
    requires Reciprocal(p)
    ensures EncryptAll(p, o, EncryptAll(p, o, s).0) == (s, EncryptAll(p, o, s).1)
  {
    if s != [] {
      var init := s[..|s| - 1];
      var before := EncryptAll(p, o, init);
      var last := EncryptOne(p, before.1, s[|s| - 1]);
      var t := EncryptAll(p, o, s).0;
      assert t == before.0 + [last.0];
      assert t[..|t| - 1] == before.0;
      EncryptAllRoundTrip(p, o, init);
      EncryptOneRoundTrip(p, before.1, s[|s| - 1]);
      assert s == init + [s[|s| - 1]];
    }
  }

  /**
   * With a fixed-point-free reflector, every letter of the ciphertext differs
   * from the letter of the plaintext at the same position.
   */
  lemma EncryptAllNoFixedLetter(p: Parts, o: Offsets, s: string, i: nat)
    requires Reciprocal(p) && FixedPointFree(p.reflect)
    requires i < |s| && IsLetter(s[i])
    ensures EncryptAll(p, o, s).0[i] != s[i]
  {
    EncryptAllAt(p, o, s, i);
    var at := Step(EncryptAll(p, o, s[..i]).1);
    assert ReciprocalAt(p, at);
    ScrambleNoFixedLetter(p, at, s[i]);
  }
}
