/**
 * The parts an Enigma machine is assembled from. Their wiring tables are not
 * part of this model: a rotor is represented by its two offset-dependent
 * translations and its mutable offset, the reflector and the plugboard by
 * one character map each.
 */
module Components {
  import opened Pipeline

  /** A rotor: fixed wiring, an offset that rotates, and a link to its left neighbour. */
  class Rotor {
    const wiring: RotorWiring
    var offset: Position
    var connection: Rotor?

    constructor (wiring: RotorWiring, offset: Position)
      ensures this.wiring == wiring && this.offset == offset && connection == null
    {
      this.wiring := wiring;
      this.offset := offset;
      connection := null;
    }

    /** Advances the offset by one position, wrapping around. */
    method Rotate()
      modifies this`offset
      ensures offset == NextPosition(old(offset))
    {
      offset := (offset + 1) % AlphabetSize;
    }

    /** The inbound translation at the current offset. */
    function TranslateRightToLeft(c: char): char
      reads this`offset
    {
      wiring.rightToLeft(offset, c)
    }

    /** The outbound translation at the current offset. */
    function TranslateLeftToRight(c: char): char
      reads this`offset
    {
      wiring.leftToRight(offset, c)
    }

    /** Records `other` as the rotor to the left of this one. */
    method SetConnection(other: Rotor)
      modifies this`connection
      ensures connection == other
    {
      connection := other;
    }
  }

  /** The reflector: a fixed pairing of letters. */
  class Reflector {
    const pairing: char -> char

    constructor (pairing: char -> char)
      ensures this.pairing == pairing
    {
      this.pairing := pairing;
    }

    function Map(c: char): char {
      pairing(c)
    }
  }

  /** The plugboard: a fixed pairing of letters, unpaired letters mapping to themselves. */
  class Plugboard {
    const pairing: char -> char

    constructor (pairing: char -> char)
      ensures this.pairing == pairing
    {
      this.pairing := pairing;
    }

    function Map(c: char): char {
      pairing(c)
    }
  }
}
