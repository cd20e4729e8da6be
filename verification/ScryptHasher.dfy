/** Passwords as text: printing a derived key with its costs and salt, and reading it back. */
module ScryptHasher {
  import opened Prelude
  import opened Text
  import Base64
  import SaltEntropy

  const ALGORITHM := "scrypt"

  datatype Costs = Costs(workFactor: int, blockSize: int, parallelism: int)

  const OWN_COSTS := Costs(16384, 8, 1)
  const SALT_ENTROPY := 128

  datatype Salt = TextSalt(text: string) | BytesSalt

  datatype Error =
    | NoPassword | DollarInSalt | SaltIsBytes | DerivationRefused
    | WrongPieces | WrongAlgorithm | NotANumber | NotAscii

  /** The key derivation function, and the source that random salts are picked from. */
  datatype Surroundings = Surroundings(
    derive: (string, string, Costs) -> Option<seq<Base64.Byte>>,
    pick: nat -> nat)

  datatype Decoded = Decoded(costs: Costs, salt: string, hash: string)

  // ----- printing -----

  function Print(d: Decoded): string {
    ALGORITHM + ['$'] + (IntToString(d.costs.workFactor) + ['$'] + (d.salt + ['$'] + (
      IntToString(d.costs.blockSize) + ['$'] + (IntToString(d.costs.parallelism) + ['$'] + d.hash))))
  }

  /** `_encode_action`. */
  function EncodeAction(s: Surroundings, password: string, salt: string, costs: Costs): Result<string, Error> {
    match s.derive(password, salt, costs)
    case None => Err(DerivationRefused)
    case Some(key) => Ok(Print(Decoded(costs, salt, Base64.Encode(key))))
  }

  /** A missing or empty salt is replaced by a generated one. */
  function UsedSalt(s: Surroundings, salt: Option<Salt>): Salt
    requires forall i :: s.pick(i) < SaltEntropy.ALPHABET_SIZE
  {
    if salt.None? || salt.value == TextSalt("") then TextSalt(SaltEntropy.GetSalt(SALT_ENTROPY, s.pick)) else salt.value
  }

  /** `encode`. */
  function Encode(s: Surroundings, password: Option<string>, salt: Option<Salt>): Result<string, Error>
    requires forall i :: s.pick(i) < SaltEntropy.ALPHABET_SIZE
  {
    var used := UsedSalt(s, salt);
    if password.None? then Err(NoPassword)
    else if used.TextSalt? && '$' in used.text then Err(DollarInSalt)
    else if used.BytesSalt? then Err(SaltIsBytes)
    else EncodeAction(s, password.value, used.text, OWN_COSTS)
  }

  // ----- reading -----

  /** `decode`: exactly six pieces, the algorithm, three numbers. */
  function Decode(encoded: string): Result<Decoded, Error> {
    var pieces := Split(encoded, '$');
    if |pieces| != 6 then Err(WrongPieces)
    else if pieces[0] != ALGORITHM then Err(WrongAlgorithm)
    else
      var n, r, p := ParseInt(pieces[1]), ParseInt(pieces[3]), ParseInt(pieces[4]);
      if n.None? || r.None? || p.None? then Err(NotANumber)
      else Ok(Decoded(Costs(n.value, r.value, p.value), pieces[2], pieces[5]))
  }

  /** `secrets.compare_digest` on two texts: a TypeError unless both are ASCII. */
  function CompareDigest(a: string, b: string): Result<bool, Error> {
    if IsAscii(a) && IsAscii(b) then Ok(a == b) else Err(NotAscii)
  }

  function Verify(s: Surroundings, secret: string, encoded: string): Result<bool, Error> {
    match Decode(encoded)
    case Err(e) => Err(e)
    case Ok(d) =>
      match EncodeAction(s, secret, d.salt, d.costs)
      case Err(e) => Err(e)
      case Ok(again) => CompareDigest(encoded, again)
  }

  function MustUpdate(encoded: string): Result<bool, Error> {
    match Decode(encoded)
    case Err(e) => Err(e)
    case Ok(d) =>
      Ok(d.costs.workFactor != OWN_COSTS.workFactor || d.costs.blockSize != OWN_COSTS.blockSize ||
         d.costs.parallelism != OWN_COSTS.parallelism)
  }

  function Identity(encoded: string): bool {
    Split(encoded, '$')[0] == ALGORITHM
  }

  // ----- the text format -----

  function Prepend(c: char, pieces: seq<string>): seq<string>
    requires pieces != []
  {
    [[c] + pieces[0]] + pieces[1..]
  }

  lemma SplitStep(c: char, s: string)
    ensures Split([c] + s, '$') == if c == '$' then [[]] + Split(s, '$') else Prepend(c, Split(s, '$'))
  {
    assert ([c] + s)[1..] == s;
  }

  lemma PrependAppend(c: char, x: seq<string>, y: seq<string>)
    requires x != []
    ensures Prepend(c, x + y) == Prepend(c, x) + y
  {
    assert (x + y)[1..] == x[1..] + y;
  }

  lemma JoinThree(x: seq<string>, y: seq<string>, z: seq<string>)
    ensures x + (y + z) == x + y + z
  {
  }

  /** One more character in front does not disturb what comes after the first piece. */
  function OneMore(c: char, pieces: seq<string>): seq<string>
    requires pieces != []
  {
    if c == '$' then [""] + pieces else Prepend(c, pieces)
  }

  lemma OneMoreAppend(c: char, x: seq<string>, y: seq<string>)
    requires x != []
    ensures OneMore(c, x + y) == OneMore(c, x) + y
  {
    if c == '$' {
      JoinThree([""], x, y);
    } else {
      PrependAppend(c, x, y);
    }
  }

  lemma SplitOneMore(c: char, s: string)
    ensures Split([c] + s, '$') == OneMore(c, Split(s, '$'))
  {
    SplitStep(c, s);
  }

  lemma SplitAppendStep(c: char, rest: string, joined: string, b: seq<string>)
    requires Split(joined, '$') == Split(rest, '$') + b
    ensures Split([c] + joined, '$') == Split([c] + rest, '$') + b
  {
    SplitOneMore(c, rest);
    SplitOneMore(c, joined);
    OneMoreAppend(c, Split(rest, '$'), b);
  }

  lemma Regroup(a: string, b: string)
    requires a != ""
    ensures a == [a[0]] + a[1..] && a + ['$'] + b == [a[0]] + (a[1..] + ['$'] + b)
  {
  }

  lemma {:induction false} SplitAppend(a: string, b: string)
    ensures Split(a + ['$'] + b, '$') == Split(a, '$') + Split(b, '$')
    decreases |a|
  {
    if a == "" {
      SplitStep('$', b);
      assert a + ['$'] + b == ['$'] + b;
    } else {
      SplitAppend(a[1..], b);
      SplitAppendStep(a[0], a[1..], a[1..] + ['$'] + b, Split(b, '$'));
      Regroup(a, b);
    }
  }

  lemma NumbersHaveNoDollar(n: int)
    ensures '$' !in IntToString(n)
  {
  }

  lemma OnePiece(a: string, rest: string)
    requires '$' !in a
    ensures Split(a + ['$'] + rest, '$') == [a] + Split(rest, '$')
  {
    SplitWhole(a, '$');
    SplitAppend(a, rest);
  }

  lemma TailPieces(costs: Costs, hash: string)
    requires '$' !in hash
    ensures Split(IntToString(costs.blockSize) + ['$'] + (IntToString(costs.parallelism) + ['$'] + hash), '$') ==
            [IntToString(costs.blockSize), IntToString(costs.parallelism), hash]
  {
    NumbersHaveNoDollar(costs.blockSize);
    NumbersHaveNoDollar(costs.parallelism);
    SplitWhole(hash, '$');
    OnePiece(IntToString(costs.parallelism), hash);
    OnePiece(IntToString(costs.blockSize), IntToString(costs.parallelism) + ['$'] + hash);
  }

  function TailOf(d: Decoded): string {
    IntToString(d.costs.blockSize) + ['$'] + (IntToString(d.costs.parallelism) + ['$'] + d.hash)
  }

  lemma SaltPieces(d: Decoded)
    requires '$' !in d.hash
    ensures Split(d.salt + ['$'] + TailOf(d), '$') ==
            Split(d.salt, '$') + [IntToString(d.costs.blockSize), IntToString(d.costs.parallelism), d.hash]
  {
    TailPieces(d.costs, d.hash);
    SplitAppend(d.salt, TailOf(d));
  }

  /** What is printed splits into the fields, the salt into as many pieces as its dollars make. */
  lemma PrintedPieces(d: Decoded)
    requires '$' !in d.hash
    ensures Split(Print(d), '$') ==
            [ALGORITHM] + ([IntToString(d.costs.workFactor)] + (Split(d.salt, '$') +
              [IntToString(d.costs.blockSize), IntToString(d.costs.parallelism), d.hash]))
  {
    NumbersHaveNoDollar(d.costs.workFactor);
    SaltPieces(d);
    OnePiece(IntToString(d.costs.workFactor), d.salt + ['$'] + TailOf(d));
    OnePiece(ALGORITHM, IntToString(d.costs.workFactor) + ['$'] + (d.salt + ['$'] + TailOf(d)));
  }

  lemma SixPieces(d: Decoded)
    requires '$' !in d.hash && '$' !in d.salt
    ensures Split(Print(d), '$') ==
            [ALGORITHM, IntToString(d.costs.workFactor), d.salt,
             IntToString(d.costs.blockSize), IntToString(d.costs.parallelism), d.hash]
  {
    PrintedPieces(d);
    SplitWhole(d.salt, '$');
  }

  lemma {:induction false} PiecesCountDollars(s: string)
    ensures |Split(s, '$')| == 1 <==> '$' !in s
  {
    if s != [] {
      PiecesCountDollars(s[1..]);
      assert s == [s[0]] + s[1..];
    }
  }

  /** What was printed is read back, for any costs and hash, exactly when the salt has no dollar. */
  lemma DecodeReadsBackIffNoDollar(d: Decoded)
    requires '$' !in d.hash
    ensures Decode(Print(d)) == Ok(d) <==> '$' !in d.salt
    ensures '$' in d.salt ==> Decode(Print(d)) == Err(WrongPieces)
  {
    if '$' in d.salt {
      PrintedPieces(d);
      PiecesCountDollars(d.salt);
    } else {
      SixPieces(d);
      ParseIntPrinted(d.costs.workFactor);
      ParseIntPrinted(d.costs.blockSize);
      ParseIntPrinted(d.costs.parallelism);
    }
  }

  lemma {:induction false} PrintIsInjective(a: Decoded, b: Decoded)
    requires '$' !in a.hash && '$' !in b.hash && '$' !in a.salt && '$' !in b.salt && Print(a) == Print(b)
    ensures a == b
  {
    DecodeReadsBackIffNoDollar(a);
    DecodeReadsBackIffNoDollar(b);
  }

  // ----- what encoding promises -----

  lemma ActionDecodes(s: Surroundings, password: string, salt: string, costs: Costs)
    requires '$' !in salt && s.derive(password, salt, costs).Some?
    ensures EncodeAction(s, password, salt, costs).Ok?
    ensures Decode(EncodeAction(s, password, salt, costs).value) ==
            Ok(Decoded(costs, salt, Base64.Encode(s.derive(password, salt, costs).value)))
  {
    var key := s.derive(password, salt, costs).value;
    Base64.EncodeHasNoDollar(key);
    DecodeReadsBackIffNoDollar(Decoded(costs, salt, Base64.Encode(key)));
  }

  /** Encoding succeeds exactly with a password, a text salt without dollars and a derivation that does not refuse. */
  lemma EncodesIff(s: Surroundings, password: Option<string>, salt: Option<Salt>)
    requires forall i :: s.pick(i) < SaltEntropy.ALPHABET_SIZE
    ensures Encode(s, password, salt).Ok? <==>
            password.Some? && UsedSalt(s, salt).TextSalt? && '$' !in UsedSalt(s, salt).text &&
            s.derive(password.value, UsedSalt(s, salt).text, OWN_COSTS).Some?
  {
  }

  /** The text decodes to what went into it. */
  lemma EncodedTextDecodes(s: Surroundings, password: Option<string>, salt: Option<Salt>)
    requires forall i :: s.pick(i) < SaltEntropy.ALPHABET_SIZE
    requires Encode(s, password, salt).Ok?
    ensures var used := UsedSalt(s, salt).text;
            Decode(Encode(s, password, salt).value) ==
            Ok(Decoded(OWN_COSTS, used, Base64.Encode(s.derive(password.value, used, OWN_COSTS).value)))
  {
    ActionDecodes(s, password.value, UsedSalt(s, salt).text, OWN_COSTS);
  }

  /** A generated salt is always good: encoding then fails only when the derivation refuses. */
  lemma GeneratedSaltsAlwaysEncode(s: Surroundings, password: string)
    requires forall i :: s.pick(i) < SaltEntropy.ALPHABET_SIZE
    ensures var salt := SaltEntropy.GetSalt(SALT_ENTROPY, s.pick);
            Encode(s, Some(password), None).Ok? <==> s.derive(password, salt, OWN_COSTS).Some?
    ensures !SaltEntropy.MustUpdateSalt(SaltEntropy.GetSalt(SALT_ENTROPY, s.pick), SALT_ENTROPY)
  {
    SaltEntropy.GeneratedSaltsNeedNoUpdate(SALT_ENTROPY, s.pick);
  }

  lemma PrintedIsAsciiIffSaltIs(d: Decoded)
    requires IsAscii(d.hash)
    ensures IsAscii(Print(d)) <==> IsAscii(d.salt)
  {
    assert IsAscii(ALGORITHM);
    assert IsAscii(IntToString(d.costs.workFactor)) && IsAscii(TailOf(d));
    AsciiAppend(IntToString(d.costs.workFactor), d.salt + ['$'] + TailOf(d));
    AsciiAppend(ALGORITHM, IntToString(d.costs.workFactor) + ['$'] + (d.salt + ['$'] + TailOf(d)));
    AsciiAppend(d.salt, TailOf(d));
  }

  lemma AsciiAppend(a: string, b: string)
    ensures IsAscii(a + ['$'] + b) <==> IsAscii(a) && IsAscii(b)
  {
    assert forall c :: c in a + ['$'] + b <==> c in a || c == '$' || c in b;
  }

  lemma ComparePrints(a: Decoded, b: Decoded)
    requires '$' !in a.hash && '$' !in b.hash && IsAscii(a.hash) && IsAscii(b.hash) && a.salt == b.salt &&
             '$' !in a.salt
    ensures CompareDigest(Print(a), Print(b)) == if IsAscii(a.salt) then Ok(a == b) else Err(NotAscii)
  {
    PrintedIsAsciiIffSaltIs(a);
    PrintedIsAsciiIffSaltIs(b);
    if Print(a) == Print(b) {
      PrintIsInjective(a, b);
    }
  }

  /**
   Verifying against a password's own or another's text answers at all exactly when the salt is ASCII,
   and then whether the two derived keys are the same.
   */
  lemma VerifyIffSameKey(s: Surroundings, password: string, secret: string, salt: string, costs: Costs)
    requires '$' !in salt && s.derive(password, salt, costs).Some? && s.derive(secret, salt, costs).Some?
    ensures EncodeAction(s, password, salt, costs).Ok?
    ensures Verify(s, secret, EncodeAction(s, password, salt, costs).value) ==
            if IsAscii(salt) then Ok(s.derive(secret, salt, costs) == s.derive(password, salt, costs))
            else Err(NotAscii)
  {
    var a, b := s.derive(password, salt, costs).value, s.derive(secret, salt, costs).value;
    var da, db := Decoded(costs, salt, Base64.Encode(a)), Decoded(costs, salt, Base64.Encode(b));
    Base64.EncodeHasNoDollar(a);
    Base64.EncodeHasNoDollar(b);
    DecodeReadsBackIffNoDollar(da);
    ComparePrints(da, db);
    if da == db {
      Base64.EncodeIsInjective(a, b);
    }
  }

  /** What `encode` gave for a password verifies it again exactly when the salt is ASCII. */
  lemma EncodedVerifiesIffSaltIsAscii(s: Surroundings, password: Option<string>, salt: Option<Salt>)
    requires forall i :: s.pick(i) < SaltEntropy.ALPHABET_SIZE
    requires Encode(s, password, salt).Ok?
    ensures Verify(s, password.value, Encode(s, password, salt).value) ==
            if IsAscii(UsedSalt(s, salt).text) then Ok(true) else Err(NotAscii)
  {
    VerifyIffSameKey(s, password.value, password.value, UsedSalt(s, salt).text, OWN_COSTS);
  }

  /** With a generated salt, whatever was encoded verifies. */
  lemma GeneratedSaltsVerify(s: Surroundings, password: string)
    requires forall i :: s.pick(i) < SaltEntropy.ALPHABET_SIZE
    requires Encode(s, Some(password), None).Ok?
    ensures Verify(s, password, Encode(s, Some(password), None).value) == Ok(true)
  {
    assert IsAscii(SaltEntropy.GetSalt(SALT_ENTROPY, s.pick));
    EncodedVerifiesIffSaltIsAscii(s, Some(password), None);
  }

  lemma GivenSaltIsUsed(s: Surroundings, password: string, salt: string)
    requires forall i :: s.pick(i) < SaltEntropy.ALPHABET_SIZE
    requires salt != "" && '$' !in salt
    ensures Encode(s, Some(password), Some(TextSalt(salt))) == EncodeAction(s, password, salt, OWN_COSTS)
  {
  }

  /** With any other salt that `encode` accepts, encoding succeeds and no password ever verifies against the text. */
  lemma OtherSaltsNeverVerify(s: Surroundings, password: string, secret: string, salt: string)
    requires forall i :: s.pick(i) < SaltEntropy.ALPHABET_SIZE
    requires !IsAscii(salt) && '$' !in salt
    requires s.derive(password, salt, OWN_COSTS).Some? && s.derive(secret, salt, OWN_COSTS).Some?
    ensures Encode(s, Some(password), Some(TextSalt(salt))).Ok?
    ensures Verify(s, secret, Encode(s, Some(password), Some(TextSalt(salt))).value) == Err(NotAscii)
  {
    assert salt != "";
    GivenSaltIsUsed(s, password, salt);
    VerifyIffSameKey(s, password, secret, salt, OWN_COSTS);
  }

  const ACCENTED := "\U{E9}"

  /** Such a salt is one accented letter. */
  lemma AccentedSaltNeverVerifies(s: Surroundings, password: string, secret: string)
    requires forall i :: s.pick(i) < SaltEntropy.ALPHABET_SIZE
    requires s.derive(password, ACCENTED, OWN_COSTS).Some? && s.derive(secret, ACCENTED, OWN_COSTS).Some?
    ensures Encode(s, Some(password), Some(TextSalt(ACCENTED))).Ok?
    ensures Verify(s, secret, Encode(s, Some(password), Some(TextSalt(ACCENTED))).value) == Err(NotAscii)
  {
    assert ACCENTED[0] in ACCENTED && ACCENTED[0] as int == 0xE9;
    OtherSaltsNeverVerify(s, password, secret, ACCENTED);
  }

  /** Verifying answers at all exactly for ASCII texts that decode to something the derivation accepts. */
  lemma VerifyAnswersIff(s: Surroundings, secret: string, encoded: string)
    ensures Verify(s, secret, encoded).Ok? <==>
            && Decode(encoded).Ok? && IsAscii(encoded)
            && s.derive(secret, Decode(encoded).value.salt, Decode(encoded).value.costs).Some?
  {
    if Decode(encoded).Ok? && IsAscii(encoded) {
      var d := Decode(encoded).value;
      assert Split(encoded, '$')[2] in Split(encoded, '$');
      assert IsAscii(d.salt);
      if s.derive(secret, d.salt, d.costs).Some? {
        var key := s.derive(secret, d.salt, d.costs).value;
        Base64.EncodeHasNoDollar(key);
        PrintedIsAsciiIffSaltIs(Decoded(d.costs, d.salt, Base64.Encode(key)));
      }
    }
  }

  /** Whatever the text, a password verifies only against the ASCII text that encoding it gives. */
  lemma OnlyPrintedTextsVerify(s: Surroundings, secret: string, encoded: string)
    ensures Verify(s, secret, encoded) == Ok(true) <==>
            exists salt, costs :: '$' !in salt && IsAscii(salt) && EncodeAction(s, secret, salt, costs) == Ok(encoded)
  {
    if Verify(s, secret, encoded) == Ok(true) {
      var d := Decode(encoded).value;
      VerifyAnswersIff(s, secret, encoded);
      assert Split(encoded, '$')[2] in Split(encoded, '$');
      assert '$' !in d.salt && IsAscii(d.salt);
      assert EncodeAction(s, secret, d.salt, d.costs) == Ok(encoded);
    }
    if exists salt, costs :: '$' !in salt && IsAscii(salt) && EncodeAction(s, secret, salt, costs) == Ok(encoded) {
      var salt, costs :| '$' !in salt && IsAscii(salt) && EncodeAction(s, secret, salt, costs) == Ok(encoded);
      VerifyIffSameKey(s, secret, secret, salt, costs);
    }
  }

  /** A text needs updating exactly when it was printed with other costs. */
  lemma MustUpdateIffCostsDiffer(s: Surroundings, password: string, salt: string, costs: Costs)
    requires '$' !in salt && s.derive(password, salt, costs).Some?
    ensures MustUpdate(EncodeAction(s, password, salt, costs).value) == Ok(costs != OWN_COSTS)
  {
    ActionDecodes(s, password, salt, costs);
  }

  /** Everything that decodes, and everything that is printed, is recognised. */
  lemma DecodableTextsAreIdentified(encoded: string)
    ensures Decode(encoded).Ok? ==> Identity(encoded)
  {
  }

  lemma PrintedTextsAreIdentified(d: Decoded)
    requires '$' !in d.hash
    ensures Identity(Print(d))
  {
    PrintedPieces(d);
  }

  // ----- the text itself -----

  lemma PrintedCosts()
    ensures IntToString(16384) == "16384" && IntToString(8) == "8" && IntToString(1) == "1"
  {
    assert NatToString(1) == "1" && NatToString(16) == "16" && NatToString(163) == "163" && NatToString(1638) == "1638";
  }

  /** What is printed, piece by piece. */
  lemma EncodedTextIs(s: Surroundings, password: string, salt: string, key: seq<Base64.Byte>)
    requires forall i :: s.pick(i) < SaltEntropy.ALPHABET_SIZE
    requires salt != "" && '$' !in salt && s.derive(password, salt, Costs(16384, 8, 1)) == Some(key)
    ensures Encode(s, Some(password), Some(TextSalt(salt))) ==
            Ok("scrypt$16384$" + salt + "$8$1$" + Base64.Encode(key))
  {
    PrintedCosts();
    GivenSaltIsUsed(s, password, salt);
    var hash := Base64.Encode(key);
    assert Print(Decoded(OWN_COSTS, salt, hash)) == "scrypt$16384$" + salt + "$8$1$" + hash;
  }

  /** Without a salt, or with an empty one, one of 22 characters is drawn. */
  lemma MissingSaltIsDrawn(s: Surroundings, password: string)
    requires forall i :: s.pick(i) < SaltEntropy.ALPHABET_SIZE
    ensures Encode(s, Some(password), Some(TextSalt(""))) == Encode(s, Some(password), None)
    ensures UsedSalt(s, None).TextSalt? && |UsedSalt(s, None).text| == 22
    ensures Encode(s, None, None) == Err(NoPassword) && Encode(s, Some(password), Some(BytesSalt)) == Err(SaltIsBytes)
  {
    SaltEntropy.SaltLengthsInUse();
  }

  /** Which error it is when encoding fails. */
  lemma EncodingFailures(s: Surroundings, password: string, salt: string)
    requires forall i :: s.pick(i) < SaltEntropy.ALPHABET_SIZE
    ensures Encode(s, None, Some(TextSalt(salt))) == Err(NoPassword)
    ensures '$' in salt ==> Encode(s, Some(password), Some(TextSalt(salt))) == Err(DollarInSalt)
    ensures salt != "" && '$' !in salt && s.derive(password, salt, Costs(16384, 8, 1)).None? ==>
              Encode(s, Some(password), Some(TextSalt(salt))) == Err(DerivationRefused)
  {
  }

  /** What decoding makes of a text, piece by piece between the dollar signs. */
  lemma PiecesAreDecoded(pieces: seq<string>)
    requires |pieces| >= 1 && forall i :: 0 <= i < |pieces| ==> '$' !in pieces[i]
    ensures Decode(Join(pieces, '$')) ==
            if |pieces| != 6 then Err(WrongPieces)
            else if pieces[0] != "scrypt" then Err(WrongAlgorithm)
            else
              var n, r, p := ParseInt(pieces[1]), ParseInt(pieces[3]), ParseInt(pieces[4]);
              if n.Some? && r.Some? && p.Some? then Ok(Decoded(Costs(n.value, r.value, p.value), pieces[2], pieces[5]))
              else Err(NotANumber)
  {
    JoinedPiecesAreSplit(pieces, '$');
  }
}
