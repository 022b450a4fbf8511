/**
  The password generator dialog: a character set built from the toggles,
  and one character per random byte, picked by the byte modulo the set's
  size. The random bytes are a parameter.
*/
module Generator {
  import opened Encryption

  const LOWER_CHARSET := "abcdefghijklmnopqrstuvwxyz"
  const UPPER_CHARSET := "ABCDEFGHIJKLMNOPQRSTUVWXYZ"
  const NUMBER_CHARSET := "0123456789"
  const SYMBOL_CHARSET := "!@#$%^&*()_+-=[]{}|;:,.<>?"

  /** The length slider's range and initial value. */
  const MIN_LENGTH := 8
  const MAX_LENGTH := 64
  const DEFAULT_LENGTH := 16

  /** The character set for the toggles: lower case, then upper case, digits and symbols when on, in that order. */
  function Charset(includeUppercase: bool, includeNumbers: bool, includeSymbols: bool): (cs: string)
    ensures LOWER_CHARSET <= cs
    ensures |cs| == 26 + (if includeUppercase then 26 else 0) + (if includeNumbers then 10 else 0) + (if includeSymbols then 26 else 0)
  {
    LOWER_CHARSET
      + (if includeUppercase then UPPER_CHARSET else "")
      + (if includeNumbers then NUMBER_CHARSET else "")
      + (if includeSymbols then SYMBOL_CHARSET else "")
  }

  /** A character belongs to the set exactly when its class is lower case or a class whose toggle is on. */
  lemma CharsetMembership(includeUppercase: bool, includeNumbers: bool, includeSymbols: bool, c: char)
    ensures c in Charset(includeUppercase, includeNumbers, includeSymbols) <==>
              || c in LOWER_CHARSET
              || (includeUppercase && c in UPPER_CHARSET)
              || (includeNumbers && c in NUMBER_CHARSET)
              || (includeSymbols && c in SYMBOL_CHARSET)
  {
  }

  /** The set is never empty, so the source's empty-set branch cannot run. */
  lemma CharsetNeverEmpty(includeUppercase: bool, includeNumbers: bool, includeSymbols: bool)
    ensures |Charset(includeUppercase, includeNumbers, includeSymbols)| >= 26
  {
  }

  /** The password the loop builds: character i is the set's character at byte i modulo the set's size. */
  function Generated(charset: string, randomBytes: seq<byte>): (password: string)
    requires charset != []
    ensures |password| == |randomBytes|
    ensures forall i :: 0 <= i < |password| ==> password[i] == charset[randomBytes[i] % |charset|]
  {
    seq(|randomBytes|, i requires 0 <= i < |randomBytes| => charset[randomBytes[i] % |charset|])
  }

  /** Every character of a generated password is drawn from the character set. */
  lemma GeneratedUsesOnlyCharset(charset: string, randomBytes: seq<byte>)
    requires charset != []
    ensures forall c :: c in Generated(charset, randomBytes) ==> c in charset
  {
    var p := Generated(charset, randomBytes);
    forall c | c in p ensures c in charset {
      var i :| 0 <= i < |p| && p[i] == c;
      assert charset[randomBytes[i] % |charset|] in charset;
    }
  }

  /** Generation is determined by the bytes: the first k bytes give the first k characters. */
  lemma GeneratedPrefix(charset: string, randomBytes: seq<byte>, k: nat)
    requires charset != [] && k <= |randomBytes|
    ensures Generated(charset, randomBytes[..k]) == Generated(charset, randomBytes)[..k]
  {
  }

  /** The callbacks "Usar contraseña" makes, in order. */
  datatype GeneratorEvent = PasswordGenerated(password: string) | Close

  class PasswordGeneratorModal {
    var length: int
    var includeUppercase: bool
    var includeNumbers: bool
    var includeSymbols: bool
    var generatedPassword: string

    ghost predicate Valid()
      reads this
    {
      MIN_LENGTH <= length <= MAX_LENGTH
    }

    /** The shown password matches the settings: it has the chosen length and uses only the enabled classes. */
    ghost predicate Current()
      reads this
    {
      && |generatedPassword| == length
      && forall c :: c in generatedPassword ==> c in Charset(includeUppercase, includeNumbers, includeSymbols)
    }

    /** Length 16, every toggle on, nothing generated yet. */
    constructor ()
      ensures Valid()
      ensures length == DEFAULT_LENGTH && includeUppercase && includeNumbers && includeSymbols
      ensures generatedPassword == ""
    {
      length := DEFAULT_LENGTH;
      includeUppercase := true;
      includeNumbers := true;
      includeSymbols := true;
      generatedPassword := "";
    }

    /**
      The length slider, whose range keeps the value between 8 and 64. The
      slider exists only while the dialog is open, so a new length always
      re-runs the generation effect, which draws `value` fresh bytes; the
      same length leaves the effect's dependencies, and the password, as
      they were.
    */
    method SetLength(value: int, randomBytes: seq<byte>)
      requires Valid()
      requires MIN_LENGTH <= value <= MAX_LENGTH && |randomBytes| == value
      modifies this
      ensures Valid() && length == value
      ensures includeUppercase == old(includeUppercase) && includeNumbers == old(includeNumbers)
      ensures includeSymbols == old(includeSymbols)
      ensures value != old(length) ==>
                generatedPassword == Generated(Charset(includeUppercase, includeNumbers, includeSymbols), randomBytes)
      ensures value == old(length) ==> generatedPassword == old(generatedPassword)
      ensures value != old(length) || old(Current()) ==> Current()
    {
      if value != length {
        length := value;
        GeneratePassword(randomBytes);
      }
    }

    /**
      The three checkboxes, which exist only while the dialog is open: a
      changed toggle re-runs the generation effect with `length` fresh
      bytes; unchanged toggles leave the password as it was.
    */
    method SetToggles(upper: bool, numbers: bool, symbols: bool, randomBytes: seq<byte>)
      requires Valid()
      requires |randomBytes| == length
      modifies this
      ensures Valid()
      ensures includeUppercase == upper && includeNumbers == numbers && includeSymbols == symbols
      ensures length == old(length)
      ensures (upper, numbers, symbols) != old((includeUppercase, includeNumbers, includeSymbols)) ==>
                generatedPassword == Generated(Charset(upper, numbers, symbols), randomBytes)
      ensures (upper, numbers, symbols) == old((includeUppercase, includeNumbers, includeSymbols)) ==>
                generatedPassword == old(generatedPassword)
      ensures (upper, numbers, symbols) != old((includeUppercase, includeNumbers, includeSymbols)) || old(Current()) ==> Current()
    {
      if (upper, numbers, symbols) != (includeUppercase, includeNumbers, includeSymbols) {
        includeUppercase := upper;
        includeNumbers := numbers;
        includeSymbols := symbols;
        GeneratePassword(randomBytes);
      }
    }

    /** The drawing loop of `generatePassword`: byte i picks character `byte % |charset|`. */
    method DrawPassword(charset: string, randomBytes: seq<byte>) returns (password: string)
      requires |charset| > 0
      ensures password == Generated(charset, randomBytes)
    {
      password := "";
      var i := 0;
      while i < |randomBytes|
        invariant 0 <= i <= |randomBytes|
        invariant password == Generated(charset, randomBytes[..i])
      {
        var randomIndex := randomBytes[i] % |charset|;
        password := password + [charset[randomIndex]];
        i := i + 1;
      }
      assert randomBytes[..i] == randomBytes;
    }

    /**
      `generatePassword`, given the `length` bytes `crypto.getRandomValues`
      would draw: builds the set by appending, then the password one
      character per byte. The effect runs it when the dialog opens, and
      "Regenerar" runs it directly.
    */
    method GeneratePassword(randomBytes: seq<byte>)
      requires Valid()
      requires |randomBytes| == length
      modifies this
      ensures Valid()
      ensures generatedPassword == Generated(Charset(includeUppercase, includeNumbers, includeSymbols), randomBytes)
      ensures |generatedPassword| == length
      ensures Current()
      ensures length == old(length) && includeUppercase == old(includeUppercase)
      ensures includeNumbers == old(includeNumbers) && includeSymbols == old(includeSymbols)
    {
      var charset := LOWER_CHARSET;
      if includeUppercase {
        charset := charset + UPPER_CHARSET;
      }
      if includeNumbers {
        charset := charset + NUMBER_CHARSET;
      }
      if includeSymbols {
        charset := charset + SYMBOL_CHARSET;
      }
      assert charset == Charset(includeUppercase, includeNumbers, includeSymbols);
      if |charset| == 0 {
        // The source clears the password here; the set always holds the lower-case letters.
        assert false;
      }
      var password := DrawPassword(charset, randomBytes);
      GeneratedUsesOnlyCharset(charset, randomBytes);
      generatedPassword := password;
    }

    /** `handleUsePassword`: hands the current password to the caller, then closes. */
    function UsePassword(): (events: seq<GeneratorEvent>)
      reads this
      ensures |events| == 2 && events[0] == PasswordGenerated(generatedPassword) && events[1] == Close
    {
      [PasswordGenerated(generatedPassword), Close]
    }
  }
}
