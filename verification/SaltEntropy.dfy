/** How long a salt must be: logarithms compared as exact powers. */
module SaltEntropy {

  const ALPHABET_SIZE := 62

  /** The letters and digits that salts are made of, in the source's order. */
  function AlphabetChar(i: nat): (c: char)
    requires i < ALPHABET_SIZE
    ensures IsAlphabetic(c)
  {
    if i < 26 then ('a' as int + i) as char
    else if i < 52 then ('A' as int + i - 26) as char
    else ('0' as int + i - 52) as char
  }

  predicate IsAlphabetic(c: char) {
    'a' <= c <= 'z' || 'A' <= c <= 'Z' || '0' <= c <= '9'
  }

  function Pow(b: nat, e: nat): (p: nat)
    ensures b > 0 ==> p > 0
  {
    if e == 0 then 1 else b * Pow(b, e - 1)
  }

  /** Whether a salt of this length carries at least so many bits: `n * log2(62) >= e`. */
  predicate Carries(n: nat, entropy: nat) {
    Pow(ALPHABET_SIZE, n) >= Pow(2, entropy)
  }

  predicate MustUpdateSalt(salt: string, entropy: nat) {
    !Carries(|salt|, entropy)
  }

  /** `ceil(entropy / log2(62))`: the first length that carries the entropy. */
  function SaltLength(entropy: nat): (n: nat)
    ensures Carries(n, entropy) && forall k: nat :: k < n ==> !Carries(k, entropy)
  {
    FirstThatCarries(entropy, 0)
  }

  function FirstThatCarries(entropy: nat, n: nat): (r: nat)
    requires forall k: nat :: k < n ==> !Carries(k, entropy)
    requires n <= entropy
    ensures Carries(r, entropy) && forall k: nat :: k < r ==> !Carries(k, entropy)
    decreases entropy - n
  {
    LongEnough(entropy);
    if Carries(n, entropy) then n else FirstThatCarries(entropy, n + 1)
  }

  lemma {:induction false} LongEnough(entropy: nat)
    ensures Carries(entropy, entropy)
  {
    if entropy > 0 {
      LongEnough(entropy - 1);
    }
  }

  lemma {:induction false} PowGrows(m: nat, n: nat)
    requires m <= n
    ensures Pow(62, m) <= Pow(62, n)
    decreases n - m
  {
    if m < n {
      PowGrows(m, n - 1);
    }
  }

  /** A salt needs updating exactly when it is shorter than a generated one. */
  lemma MustUpdateIffShorter(salt: string, entropy: nat)
    ensures MustUpdateSalt(salt, entropy) <==> |salt| < SaltLength(entropy)
  {
    if |salt| >= SaltLength(entropy) {
      PowGrows(SaltLength(entropy), |salt|);
    }
  }

  /** `get_salt`, given what the random source picks. */
  function GetSalt(entropy: nat, pick: nat -> nat): (salt: string)
    requires forall i :: pick(i) < ALPHABET_SIZE
    ensures |salt| == SaltLength(entropy) && forall c :: c in salt ==> IsAlphabetic(c)
  {
    Picked(SaltLength(entropy), pick)
  }

  function Picked(n: nat, pick: nat -> nat): (s: string)
    requires forall i :: pick(i) < ALPHABET_SIZE
    ensures |s| == n && forall c :: c in s ==> IsAlphabetic(c)
  {
    if n == 0 then "" else Picked(n - 1, pick) + [AlphabetChar(pick(n - 1))]
  }

  lemma GeneratedSaltsNeedNoUpdate(entropy: nat, pick: nat -> nat)
    requires forall i :: pick(i) < ALPHABET_SIZE
    ensures !MustUpdateSalt(GetSalt(entropy, pick), entropy) && '$' !in GetSalt(entropy, pick)
  {
    assert !IsAlphabetic('$');
  }

  // ----- which salts are drawn -----

  /** Small letters, capitals and digits, each in their order. */
  lemma AlphabetInOrder(i: nat)
    ensures AlphabetChar(0) == 'a' && AlphabetChar(25) == 'z'
    ensures AlphabetChar(26) == 'A' && AlphabetChar(51) == 'Z'
    ensures AlphabetChar(52) == '0' && AlphabetChar(61) == '9'
    ensures i < 61 && i != 25 && i != 51 ==> AlphabetChar(i + 1) as int == AlphabetChar(i) as int + 1
  {
  }

  lemma {:induction false} PickedAt(n: nat, pick: nat -> nat, i: nat)
    requires (forall k :: pick(k) < ALPHABET_SIZE) && i < n
    ensures Picked(n, pick)[i] == AlphabetChar(pick(i))
    decreases n
  {
    if i < n - 1 {
      PickedAt(n - 1, pick, i);
    }
  }

  /** Each character of a salt is the one that its own pick stands for. */
  lemma SaltIsAsPicked(entropy: nat, pick: nat -> nat, i: nat)
    requires (forall k :: pick(k) < ALPHABET_SIZE) && i < SaltLength(entropy)
    ensures GetSalt(entropy, pick)[i] == AlphabetChar(pick(i))
  {
    PickedAt(SaltLength(entropy), pick, i);
  }

  function PlaceOf(c: char): (i: nat)
    requires IsAlphabetic(c)
    ensures i < ALPHABET_SIZE && AlphabetChar(i) == c
  {
    if 'a' <= c <= 'z' then c as int - 'a' as int
    else if 'A' <= c <= 'Z' then c as int - 'A' as int + 26
    else c as int - '0' as int + 52
  }

  /** Every text of letters and digits of the right length is drawn by some picks, so all of these can come up. */
  lemma EverySaltCanBeDrawn(entropy: nat, salt: string) returns (pick: nat -> nat)
    requires |salt| == SaltLength(entropy) && forall i :: 0 <= i < |salt| ==> IsAlphabetic(salt[i])
    ensures (forall k :: pick(k) < ALPHABET_SIZE) && GetSalt(entropy, pick) == salt
  {
    pick := (k: nat) => if k < |salt| && IsAlphabetic(salt[k]) then PlaceOf(salt[k]) else 0;
    forall i | 0 <= i < |salt|
      ensures GetSalt(entropy, pick)[i] == salt[i]
    {
      PickedAt(|salt|, pick, i);
    }
  }

  // ----- the lengths in use -----

  lemma {:induction false} PowAdds(b: nat, m: nat, n: nat)
    ensures Pow(b, m + n) == Pow(b, m) * Pow(b, n)
  {
    if m > 0 {
      PowAdds(b, m - 1, n);
      assert Pow(b, m + n) == b * (Pow(b, m - 1) * Pow(b, n));
    }
  }

  lemma TwoToTheThirtySecond()
    ensures Pow(2, 8) == 256 && Pow(2, 32) == 4294967296
  {
    assert Pow(2, 8) == 256;
    PowAdds(2, 8, 8);
    PowAdds(2, 16, 16);
  }

  lemma PowersOfTwo()
    ensures Pow(2, 45) == 35184372088832
    ensures Pow(2, 128) == 340282366920938463463374607431768211456
  {
    TwoToTheThirtySecond();
    PowAdds(2, 32, 32);
    PowAdds(2, 64, 64);
    PowAdds(2, 32, 13);
    assert Pow(2, 5) == 32;
    PowAdds(2, 8, 5);
  }

  lemma PowersOfTheAlphabet()
    ensures Pow(62, 7) == 3521614606208 && Pow(62, 8) == 218340105584896
    ensures Pow(62, 21) == 43674252383913877424036476406214950912 &&
            Pow(62, 22) == 2707803647802660400290261537185326956544
  {
    assert Pow(62, 3) == 238328;
    PowAdds(62, 3, 4);
    assert Pow(62, 4) == 14776336;
    PowAdds(62, 4, 4);
    PowAdds(62, 8, 8);
    assert Pow(62, 5) == 916132832;
    PowAdds(62, 16, 5);
    assert Pow(62, 22) == 62 * Pow(62, 21);
  }

  lemma SaltLengthsInUse()
    ensures SaltLength(128) == 22 && SaltLength(45) == 8
  {
    PowersOfTwo();
    PowersOfTheAlphabet();
    LengthIs(128, 22);
    LengthIs(45, 8);
  }

  lemma LengthIs(entropy: nat, n: nat)
    requires n > 0 && Carries(n, entropy) && !Carries(n - 1, entropy)
    ensures SaltLength(entropy) == n
  {
    if SaltLength(entropy) < n {
      PowGrows(SaltLength(entropy), n - 1);
    }
  }
}
