/** `generate_password`: a password of the requested length drawn from
    letters, digits and punctuation. The cryptographic random choice is
    a nondeterministic pick from the alphabet. */
module PwGen {
  import opened Outcomes
  import opened PyValues

  const AsciiLetters := "abcdefghijklmnopqrstuvwxyzABCDEFGHIJKLMNOPQRSTUVWXYZ"
  const Digits := "0123456789"
  const Punctuation := "!\"#$%&'()*+,-./:;<=>?@[\\]^_`{|}~"

  /** `string.ascii_letters + string.digits + string.punctuation` */
  const Alphabet := AsciiLetters + Digits + Punctuation

  /** The four arms of `generate_password`'s if-chain. */
  datatype Branch = NotAnInt | Positive | NotPositive | Otherwise

  /** Which arm a length argument takes. */
  function BranchOf(length: PyValue): Branch
  {
    if !IsInstanceInt(length) then NotAnInt
    else if IntValue(length) > 0 then Positive
    else if IntValue(length) <= 0 then NotPositive
    else Otherwise
  }

  /** Only a positive int (or True, which is 1) reaches the generating arm;
      zero and negative lengths take the same arm, and the final `else`
      is never taken. */
  lemma BranchCases(length: PyValue)
    ensures BranchOf(length) == Positive <==> IsInstanceInt(length) && IntValue(length) > 0
    ensures BranchOf(length) == NotPositive <==> IsInstanceInt(length) && IntValue(length) <= 0
    ensures BranchOf(length) != Otherwise
    ensures |Alphabet| == 94
  {
  }

  /** What `generate_password(length)` may return: None for a non-int or a
      length below 1, otherwise exactly that many characters from the alphabet. */
  predicate Generated(length: PyValue, pw: Option<string>)
  {
    (pw.Some? <==> IsInstanceInt(length) && IntValue(length) > 0) &&
    (pw.Some? ==> |pw.value| == IntValue(length) && forall i :: 0 <= i < |pw.value| ==> pw.value[i] in Alphabet)
  }

  /** An int subclass instance, such as an IntEnum member, is a length like
      its integer value: a positive one gives a password of that length. */
  lemma IntSubclassLength(m: int, pw: Option<string>)
    requires Generated(PyIntSub(m), pw)
    ensures pw.Some? <==> m > 0
    ensures pw.Some? ==> |pw.value| == m
  {
  }

  /** `generate_password(password_length)` */
  method GeneratePassword(passwordLength: PyValue) returns (pw: Option<string>)
    ensures Generated(passwordLength, pw)
  {
    if BranchOf(passwordLength) != Positive {
      return None;
    }
    var n := IntValue(passwordLength);
    var generated := "";
    var i := 0;
    while i < n
      invariant 0 <= i <= n
      invariant |generated| == i
      invariant forall j :: 0 <= j < i ==> generated[j] in Alphabet
    {
      assert Alphabet[0] in Alphabet;
      var c :| c in Alphabet;   // secrets.choice(gen_characters)
      generated := generated + [c];
      i := i + 1;
    }
    return Some(generated);
  }
}
