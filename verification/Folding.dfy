/**
  * What the rest of the project needs of case folding, and the folding of ASCII strings,
  * which meets it. How other strings fold is not part of this model.
  */
module Folding {
  import opened Bytes
  import opened NameArena

  /** The string ends in `\`. */
  predicate ClosesFolder(p: ByteString) {
    p != [] && p[|p| - 1] == BACKSLASH
  }

  /** A closing `\` keeps folding from joining what is before it to what follows it. */
  ghost predicate SplitsAtBackslash(fold: Fold) {
    && (forall p, x :: ClosesFolder(p) ==> fold(p + x) == fold(p) + fold(x))
    && (forall p :: ClosesFolder(fold(p)) ==> ClosesFolder(p))
  }

  function LowerByte(b: Byte): Byte {
    if 0x41 <= b <= 0x5A then b + 0x20 else b
  }

  /** The folding of a string whose every byte is ASCII. */
  function AsciiFold(s: ByteString): ByteString {
    seq(|s|, k requires 0 <= k < |s| => LowerByte(s[k]))
  }

  /**
    * Lower-casing byte by byte keeps names storable, splits at `\`, folding again changes nothing, and
    * different names fold alike.
    */
  lemma AsciiFoldFits()
    ensures SplitsAtBackslash(AsciiFold)
    ensures forall name :: NulFree(name) && |name| <= MAX_NAME ==> Nameable(AsciiFold, name)
    ensures forall s :: AsciiFold(AsciiFold(s)) == AsciiFold(s)
    ensures AsciiFold([0x41]) == AsciiFold([0x61])
  {
    forall p, x ensures AsciiFold(p + x) == AsciiFold(p) + AsciiFold(x) {
    }
  }
}
