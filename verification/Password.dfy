/**
 Stored password hashes: a text that carries its own parameters, verification
 against it, and the decision to hash again. The PRF, the rune count, base64 and
 the random salt are given by the caller.
 */
module Password {
  import opened Wrappers
  import opened Bytes
  import opened Decimal
  import opened Pbkdf2

  const ALGORITHM := "pbkdf2-sha256"
  const DEFAULT_ITERATIONS := 600_000
  const DEFAULT_SALT_LENGTH := 16
  const DEFAULT_KEY_LENGTH := 32
  const MIN_ITERATIONS := 100_000
  const MIN_PASSWORD_LENGTH := 12
  const MAX_PASSWORD_LENGTH := 1024

  /** Go's int on a 64-bit machine. */
  type Int = x: int | -0x8000_0000_0000_0000 <= x < 0x8000_0000_0000_0000

  datatype Error =
    | TooShort | TooLong | NoSalt | Mismatch | UnsupportedAlgorithm
    | NotFourFields | NoIterations | BadIterations | BadSalt | BadKey | EmptySaltOrKey

  datatype Params = Params(iterations: Int, saltLength: Int, keyLength: Int)

  /** What the package takes from the standard library. */
  datatype Library = Library(
    prf: Octets -> Prf, hLen: nat, runes: Octets -> nat,
    toBase64: Octets -> string, fromBase64: string -> Option<Octets>)

  /** HMAC has a fixed output length; raw base64 reads back and its alphabet has no dollar sign. */
  ghost predicate Works(lib: Library) {
    && (forall password :: FixedOutput(lib.prf(password), lib.hLen))
    && (forall b :: lib.fromBase64(lib.toBase64(b)) == Some(b))
    && (forall b :: '$' !in lib.toBase64(b))
  }

  datatype Stored = Stored(alg: string, iterations: Int, salt: Octets, key: Octets)

  // ---- the text

  /** %d */
  function FormatInt(n: Int): (s: string)
    ensures '$' !in s
  {
    if n < 0 then "-" + Format(0 - n) else Format(n)
  }

  function Encode(lib: Library, s: Stored): string {
    "$" + s.alg + "$i=" + FormatInt(s.iterations) + "$" + lib.toBase64(s.salt) + "$" + lib.toBase64(s.key)
  }

  /** strings.Split at dollar signs: always at least one part. */
  function Split(s: string): (parts: seq<string>)
    ensures parts != []
  {
    if s == [] then [""]
    else if s[0] == '$' then [""] + Split(s[1..])
    else
      var rest := Split(s[1..]);
      [[s[0]] + rest[0]] + rest[1..]
  }

  /** strconv.Atoi: an optional sign, at least one digit, and a value that fits. */
  function Atoi(s: string): Option<Int> {
    var digits := if s != [] && (s[0] == '+' || s[0] == '-') then s[1..] else s;
    if digits == [] || !AllDigits(digits) then None
    else
      var v: int := if s[0] == '-' then 0 - ValueOf(digits) else ValueOf(digits);
      if -0x8000_0000_0000_0000 <= v < 0x8000_0000_0000_0000 then Some(v) else None
  }

  function Decode(lib: Library, text: string): Result<Stored, Error> {
    var parts := Split(text);
    if |parts| != 5 || parts[0] != "" then Err(NotFourFields)
    else if !("i=" <= parts[2]) then Err(NoIterations)
    else
      var iterations := Atoi(parts[2][2..]);
      if iterations.None? || iterations.value <= 0 then Err(BadIterations)
      else
        var salt, key := lib.fromBase64(parts[3]), lib.fromBase64(parts[4]);
        if salt.None? then Err(BadSalt)
        else if key.None? then Err(BadKey)
        else if salt.value == [] || key.value == [] then Err(EmptySaltOrKey)
        else Ok(Stored(parts[1], iterations.value, salt.value, key.value))
  }

  // ---- operations

  function ValidatePassword(lib: Library, password: Octets): Option<Error> {
    if lib.runes(password) < MIN_PASSWORD_LENGTH then Some(TooShort)
    else if |password| > MAX_PASSWORD_LENGTH then Some(TooLong)
    else None
  }

  function Effective(p: Params): (q: Params)
    ensures q.iterations > 0 && q.saltLength > 0 && q.keyLength > 0
  {
    Params(if p.iterations <= 0 then DEFAULT_ITERATIONS else p.iterations,
           if p.saltLength <= 0 then DEFAULT_SALT_LENGTH else p.saltLength,
           if p.keyLength <= 0 then DEFAULT_KEY_LENGTH else p.keyLength)
  }

  /** The record a password hashes to, with the salt that was drawn for it. */
  ghost function StoredFor(lib: Library, password: Octets, p: Params, salt: Octets): Stored
    requires Works(lib)
  {
    var q := Effective(p);
    Stored(ALGORITHM, q.iterations, salt, DerivedKey(lib.prf(password), lib.hLen, salt, q.iterations, q.keyLength))
  }

  /** drawn is what the random source gives for the length asked of it; it may fail. */
  method Hash(lib: Library, password: Octets, p: Params, drawn: nat -> Option<Octets>) returns (r: Result<string, Error>)
    requires Works(lib) && forall n :: drawn(n).Some? ==> |drawn(n).value| == n
    ensures var salt := drawn(Effective(p).saltLength);
            if lib.runes(password) < 12 then r == Err(TooShort)
            else if |password| > 1024 then r == Err(TooLong)
            else r == if salt.None? then Err(NoSalt) else Ok(Encode(lib, StoredFor(lib, password, p, salt.value)))
  {
    var invalid := ValidatePassword(lib, password);
    if invalid.Some? {
      return Err(invalid.value);
    }
    var q := Effective(p);
    var salt := drawn(q.saltLength);
    if salt.None? {
      return Err(NoSalt);
    }
    var key := Derive(lib.prf(password), lib.hLen, salt.value, q.iterations, q.keyLength);
    r := Ok(Encode(lib, Stored(ALGORITHM, q.iterations, salt.value, key)));
  }

  /** None is success. */
  ghost function VerdictOf(lib: Library, password: Octets, text: string): Option<Error>
    requires Works(lib)
  {
    match Decode(lib, text)
    case Err(e) => Some(e)
    case Ok(s) =>
      if s.alg != ALGORITHM then Some(UnsupportedAlgorithm)
      else if |password| > MAX_PASSWORD_LENGTH then Some(Mismatch)
      else if s.iterations > 0 && DerivedKey(lib.prf(password), lib.hLen, s.salt, s.iterations, |s.key|) == s.key then None
      else Some(Mismatch)
  }

  method Verify(lib: Library, password: Octets, text: string) returns (r: Option<Error>)
    requires Works(lib)
    ensures r == VerdictOf(lib, password, text)
  {
    var decoded := Decode(lib, text);
    if decoded.Err? {
      return Some(decoded.error);
    }
    var s := decoded.value;
    if s.alg != ALGORITHM {
      return Some(UnsupportedAlgorithm);
    }
    if |password| > MAX_PASSWORD_LENGTH {
      return Some(Mismatch);
    }
    var got := Derive(lib.prf(password), lib.hLen, s.salt, s.iterations, |s.key|);
    r := if got == s.key then None else Some(Mismatch);
  }

  function NeedsRehash(lib: Library, text: string, p: Params): bool {
    match Decode(lib, text)
    case Err(_) => true
    case Ok(s) =>
      || s.alg != ALGORITHM
      || s.iterations < p.iterations || s.iterations < MIN_ITERATIONS
      || |s.salt| < p.saltLength || |s.key| < p.keyLength
  }

  // ---- the text reads back

  lemma {:induction false} SplitPlain(a: string, rest: string)
    requires '$' !in a
    ensures Split(a) == [a]
    ensures Split(a + "$" + rest) == [a] + Split(rest)
  {
    if a == [] {
      assert a + "$" + rest == "$" + rest;
      assert ("$" + rest)[1..] == rest;
    } else {
      var s := a + "$" + rest;
      assert s[0] == a[0] && s[1..] == a[1..] + "$" + rest;
      SplitPlain(a[1..], rest);
      assert [a[0]] + a[1..] == a;
      assert ([a[1..]] + Split(rest))[1..] == Split(rest);
    }
  }

  /** Dollar signs add parts, wherever they are. */
  lemma {:induction false} SplitAddsUp(a: string, b: string)
    ensures |Split(a + b)| == |Split(a)| + |Split(b)| - 1
    ensures '$' in a ==> |Split(a)| >= 2
  {
    if a == [] {
      assert a + b == b;
    } else {
      assert (a + b)[0] == a[0] && (a + b)[1..] == a[1..] + b;
      SplitAddsUp(a[1..], b);
    }
  }

  lemma DollarAddsOne(b: string)
    ensures |Split("$" + b)| == |Split(b)| + 1
  {
    assert ("$" + b)[1..] == b;
  }

  /** The four fields, whatever the algorithm's name. */
  function Tail(lib: Library, s: Stored): string
  {
    "i=" + FormatInt(s.iterations) + "$" + lib.toBase64(s.salt) + "$" + lib.toBase64(s.key)
  }

  lemma EncodeIs(lib: Library, s: Stored)
    ensures Encode(lib, s) == "" + "$" + (s.alg + "$" + Tail(lib, s))
  {
    var f, a, b := FormatInt(s.iterations), lib.toBase64(s.salt), lib.toBase64(s.key);
    assert "$i=" == "$" + "i=";
  }

  lemma TailSplits(lib: Library, s: Stored)
    requires Works(lib)
    ensures Split(Tail(lib, s)) == ["i=" + FormatInt(s.iterations), lib.toBase64(s.salt), lib.toBase64(s.key)]
  {
    var i, a, b := "i=" + FormatInt(s.iterations), lib.toBase64(s.salt), lib.toBase64(s.key);
    assert Tail(lib, s) == i + "$" + (a + "$" + b);
    SplitPlain(i, a + "$" + b);
    SplitPlain(a, b);
    SplitPlain(b, "");
  }

  lemma IterationsReadBack(n: Int)
    ensures Atoi(FormatInt(n)) == Some(n)
  {
    if n < 0 {
      FormatReadsBack(0 - n);
      assert ("-" + Format(0 - n))[1..] == Format(0 - n);
    } else {
      FormatReadsBack(n);
    }
  }

  lemma DecodePlainAlgorithm(lib: Library, s: Stored)
    requires Works(lib) && '$' !in s.alg
    ensures Split(Encode(lib, s)) == ["", s.alg, "i=" + FormatInt(s.iterations), lib.toBase64(s.salt), lib.toBase64(s.key)]
  {
    EncodeIs(lib, s);
    SplitPlain("", s.alg + "$" + Tail(lib, s));
    SplitPlain(s.alg, Tail(lib, s));
    TailSplits(lib, s);
  }

  lemma DecodeSplitAlgorithm(lib: Library, s: Stored)
    requires Works(lib) && '$' in s.alg
    ensures |Split(Encode(lib, s))| > 5
  {
    EncodeIs(lib, s);
    SplitPlain("", s.alg + "$" + Tail(lib, s));
    SplitAddsUp(s.alg, "$" + Tail(lib, s));
    assert s.alg + "$" + Tail(lib, s) == s.alg + ("$" + Tail(lib, s));
    DollarAddsOne(Tail(lib, s));
    TailSplits(lib, s);
  }

  /** decode undoes encode exactly for records that could have been hashed. */
  lemma DecodeUndoesEncodeExactlyWhen(lib: Library, s: Stored)
    requires Works(lib)
    ensures Decode(lib, Encode(lib, s)) == Ok(s) <==> '$' !in s.alg && s.iterations > 0 && s.salt != [] && s.key != []
  {
    if '$' in s.alg {
      DecodeSplitAlgorithm(lib, s);
    } else {
      DecodePlainAlgorithm(lib, s);
      var third := "i=" + FormatInt(s.iterations);
      assert third[2..] == FormatInt(s.iterations);
      IterationsReadBack(s.iterations);
    }
  }

  // ---- hashing, verifying and hashing again

  lemma StoredReadsBack(lib: Library, password: Octets, p: Params, salt: Octets)
    requires Works(lib) && |salt| == Effective(p).saltLength
    ensures var s := StoredFor(lib, password, p, salt); Decode(lib, Encode(lib, s)) == Ok(s)
  {
    DecodeUndoesEncodeExactlyWhen(lib, StoredFor(lib, password, p, salt));
  }

  /** A stored hash accepts the password it was made from, and another one only if it derives the same key. */
  lemma VerifyAcceptsExactly(lib: Library, password: Octets, p: Params, salt: Octets, other: Octets)
    requires Works(lib) && |salt| == Effective(p).saltLength && ValidatePassword(lib, password) == None
    ensures VerdictOf(lib, password, Encode(lib, StoredFor(lib, password, p, salt))) == None
    ensures VerdictOf(lib, other, Encode(lib, StoredFor(lib, password, p, salt))) == None
       <==> |other| <= MAX_PASSWORD_LENGTH && StoredFor(lib, other, p, salt) == StoredFor(lib, password, p, salt)
  {
    StoredReadsBack(lib, password, p, salt);
  }

  /** Upgrading settles after one rehash, unless the policy itself asks for less than the least accepted. */
  lemma RehashSettlesExactlyWhen(lib: Library, password: Octets, p: Params, salt: Octets)
    requires Works(lib) && |salt| == Effective(p).saltLength
    ensures NeedsRehash(lib, Encode(lib, StoredFor(lib, password, p, salt)), p) <==> 0 < p.iterations < MIN_ITERATIONS
  {
    StoredReadsBack(lib, password, p, salt);
  }

  // ---- the text, and what is made of any text

  /** A stored hash as it is written. */
  lemma StoredText(lib: Library, password: Octets, p: Params, salt: Octets)
    requires Works(lib)
    ensures var n := if p.iterations <= 0 then 600_000 else p.iterations;
            var keyLength := if p.keyLength <= 0 then 32 else p.keyLength;
            Encode(lib, StoredFor(lib, password, p, salt))
            == "$pbkdf2-sha256$i=" + Format(n) + "$" + lib.toBase64(salt) + "$"
             + lib.toBase64(DerivedKey(lib.prf(password), lib.hLen, salt, n, keyLength))
  {
    assert "$" + "pbkdf2-sha256" + "$i=" == "$pbkdf2-sha256$i=";
  }

  function Join(parts: seq<string>): string
    requires parts != []
  {
    if |parts| == 1 then parts[0] else parts[0] + "$" + Join(parts[1..])
  }

  lemma {:induction false} SplitJoins(s: string)
    ensures Join(Split(s)) == s
    ensures forall i :: 0 <= i < |Split(s)| ==> '$' !in Split(s)[i]
  {
    if s != [] {
      SplitJoins(s[1..]);
      var rest := Split(s[1..]);
      assert s == [s[0]] + s[1..];
      if s[0] == '$' {
        assert Split(s)[1..] == rest;
        assert "" + "$" + Join(rest) == s;
      } else {
        JoinGrown(s[0], rest);
      }
    }
  }

  lemma JoinGrown(c: char, parts: seq<string>)
    requires parts != []
    ensures Join([[c] + parts[0]] + parts[1..]) == [c] + Join(parts)
  {
    var grown := [[c] + parts[0]] + parts[1..];
    assert grown[1..] == parts[1..];
    if |parts| > 1 {
      assert ([c] + parts[0]) + "$" + Join(parts[1..]) == [c] + (parts[0] + "$" + Join(parts[1..]));
    }
  }

  lemma JoinFive(parts: seq<string>)
    requires |parts| == 5
    ensures Join(parts) == parts[0] + "$" + (parts[1] + "$" + (parts[2] + "$" + (parts[3] + "$" + parts[4])))
  {
    var one, two := parts[1..], parts[2..];
    var three, four := parts[3..], parts[4..];
    assert one[1..] == two && two[1..] == three && three[1..] == four;
    assert Join(four) == parts[4] && Join(three) == parts[3] + "$" + Join(four);
    assert Join(two) == parts[2] + "$" + Join(three) && Join(one) == parts[1] + "$" + Join(two);
  }

  /** The four fields of a text, none with a dollar sign in it. */
  ghost predicate Fields(text: string, alg: string, num: string, a: string, b: string) {
    && '$' !in alg && '$' !in num && '$' !in a && '$' !in b
    && text == "" + "$" + (alg + "$" + (("i=" + num) + "$" + (a + "$" + b)))
  }

  lemma FieldsAreSplit(text: string, alg: string, num: string, a: string, b: string)
    requires Fields(text, alg, num, a, b)
    ensures Split(text) == ["", alg, "i=" + num, a, b]
  {
    SplitPlain("", alg + "$" + (("i=" + num) + "$" + (a + "$" + b)));
    SplitPlain(alg, ("i=" + num) + "$" + (a + "$" + b));
    SplitPlain("i=" + num, a + "$" + b);
    SplitPlain(a, b);
    SplitPlain(b, "");
  }

  lemma SplitAreFields(text: string)
    requires |Split(text)| == 5 && Split(text)[0] == "" && "i=" <= Split(text)[2]
    ensures Fields(text, Split(text)[1], Split(text)[2][2..], Split(text)[3], Split(text)[4])
  {
    var parts := Split(text);
    SplitJoins(text);
    JoinFive(parts);
    assert parts[2] == "i=" + parts[2][2..];
    forall c | c in parts[2][2..] ensures c != '$' {
      assert c in parts[2];
    }
  }

  ghost predicate Reads(lib: Library, text: string, s: Stored, num: string, a: string, b: string) {
    && Fields(text, s.alg, num, a, b)
    && Atoi(num) == Some(s.iterations) && s.iterations > 0
    && lib.fromBase64(a) == Some(s.salt) && s.salt != [] && lib.fromBase64(b) == Some(s.key) && s.key != []
  }

  /** A text is read exactly when it is four such fields, with a positive count and neither salt nor key empty. */
  lemma DecodeGrammar(lib: Library, text: string, s: Stored)
    ensures Decode(lib, text) == Ok(s) <==> exists num, a, b :: Reads(lib, text, s, num, a, b)
  {
    if Decode(lib, text) == Ok(s) {
      SplitAreFields(text);
      var parts := Split(text);
      assert Reads(lib, text, s, parts[2][2..], parts[3], parts[4]);
    }
    forall num, a, b | Reads(lib, text, s, num, a, b)
      ensures Decode(lib, text) == Ok(s)
    {
      FieldsAreSplit(text, s.alg, num, a, b);
      assert ("i=" + num)[2..] == num;
    }
  }

  /** A whole number: digits with at most one sign in front, and a value that fits sixty-four bits. */
  lemma AtoiExactly(s: string, v: Int)
    ensures Atoi(s) == Some(v) <==>
              || (s != "" && AllDigits(s) && v == ValueOf(s))
              || (|s| > 1 && s[0] == '+' && AllDigits(s[1..]) && v == ValueOf(s[1..]))
              || (|s| > 1 && s[0] == '-' && AllDigits(s[1..]) && v == 0 - ValueOf(s[1..]))
  {
    if s != "" && (s[0] == '+' || s[0] == '-') {
      AtoiSigned(s, v);
      assert !AllDigits(s);
    } else {
    }
  }

  lemma AtoiSigned(s: string, v: Int)
    requires s != "" && (s[0] == '+' || s[0] == '-')
    ensures Atoi(s) == Some(v) <==> |s| > 1 && AllDigits(s[1..]) && v == if s[0] == '+' then ValueOf(s[1..]) else 0 - ValueOf(s[1..])
  {
  }

  /** What verifying makes of any record that reads back: the algorithm first, then length and key. */
  lemma VerdictOnRecord(lib: Library, password: Octets, s: Stored)
    requires Works(lib) && '$' !in s.alg && s.iterations > 0 && s.salt != [] && s.key != []
    ensures VerdictOf(lib, password, Encode(lib, s))
         == if s.alg != "pbkdf2-sha256" then Some(UnsupportedAlgorithm)
            else if |password| > 1024 then Some(Mismatch)
            else if DerivedKey(lib.prf(password), lib.hLen, s.salt, s.iterations, |s.key|) != s.key then Some(Mismatch)
            else None
  {
    DecodeUndoesEncodeExactlyWhen(lib, s);
  }

  /** And of any text: a password is accepted only against a record that can be read and that it derives. */
  lemma AcceptedMeansDerived(lib: Library, password: Octets, text: string)
    requires Works(lib)
    ensures VerdictOf(lib, password, text) == None <==>
              exists s :: Decode(lib, text) == Ok(s) && s.alg == "pbkdf2-sha256" && |password| <= 1024 && s.iterations > 0
                && DerivedKey(lib.prf(password), lib.hLen, s.salt, s.iterations, |s.key|) == s.key
    ensures Decode(lib, text).Err? ==> VerdictOf(lib, password, text) == Some(Decode(lib, text).error)
  {
  }

  /** A hash made under one policy needs another under a second exactly when it is weaker in some respect. */
  lemma RehashExactlyWhenWeaker(lib: Library, password: Octets, p: Params, q: Params, salt: Octets)
    requires Works(lib) && |salt| == Effective(p).saltLength
    ensures var n := if p.iterations <= 0 then 600_000 else p.iterations;
            var saltLength := if p.saltLength <= 0 then 16 else p.saltLength;
            var keyLength := if p.keyLength <= 0 then 32 else p.keyLength;
            NeedsRehash(lib, Encode(lib, StoredFor(lib, password, p, salt)), q) <==>
              n < q.iterations || n < 100_000 || saltLength < q.saltLength || keyLength < q.keyLength
  {
    StoredReadsBack(lib, password, p, salt);
  }

  /** So does every text that cannot be read, and every record of another algorithm or too few iterations. */
  lemma RehashOfRecord(lib: Library, text: string, s: Stored, q: Params)
    requires Works(lib) && '$' !in s.alg && s.iterations > 0 && s.salt != [] && s.key != []
    ensures NeedsRehash(lib, Encode(lib, s), q) <==>
              || s.alg != "pbkdf2-sha256" || s.iterations < q.iterations || s.iterations < 100_000
              || |s.salt| < q.saltLength || |s.key| < q.keyLength
    ensures Decode(lib, text).Err? ==> NeedsRehash(lib, text, q)
  {
    DecodeUndoesEncodeExactlyWhen(lib, s);
  }
}
