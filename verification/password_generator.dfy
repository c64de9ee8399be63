/** Generating a password: the alphabet is the ASCII letters and digits,
    with the punctuation added on request, and the password is `length`
    characters drawn from it. The random draws are an input sequence of
    indices; bcrypt's hashing and checking are oracles. */
module PasswordGenerator {
  import opened Wrappers

  const DefaultLength := 32
  const DefaultSymbols := false
  const ErrorMessage := "An error has occurred."

  // ---------------------------------------------------------------------
  // The alphabet

  /** The `n` characters with codes `lo`, `lo + 1`, ... in order. */
  function CharRange(lo: nat, n: nat): (r: string)
    requires lo + n <= 128
    ensures |r| == n
    ensures forall k :: 0 <= k < n ==> r[k] as int == lo + k
  {
    seq(n, k requires 0 <= k < n => (lo + k) as char)
  }

  /** `string.ascii_letters`: lower case, then upper case. */
  const AsciiLetters := CharRange('a' as nat, 26) + CharRange('A' as nat, 26)
  /** `string.digits`. */
  const Digits := CharRange('0' as nat, 10)
  /** `string.punctuation`, in its order. */
  const Punctuation := "!\"#$%&'()*+,-./:;<=>?@[\\]^_`{|}~"

  predicate IsAsciiAlnum(c: char) {
    ('a' <= c <= 'z') || ('A' <= c <= 'Z') || ('0' <= c <= '9')
  }

  /** Printable ASCII that is neither a letter, a digit nor the space. */
  predicate IsAsciiPunctuation(c: char) {
    ('!' <= c <= '/') || (':' <= c <= '@') || ('[' <= c <= '`') || ('{' <= c <= '~')
  }

  /** The alphabet for a password, `characters` in the script. */
  function Alphabet(symbols: bool): (a: string)
    ensures |a| == if symbols then 94 else 62
    ensures forall k :: 0 <= k < |a| ==> a[k] as int < 128
  {
    var base := AsciiLetters + Digits;
    if symbols then base + Punctuation else base
  }

  /** `string.punctuation` is the four runs of ASCII symbols, in code order. */
  lemma PunctuationIsSymbolRuns()
    ensures Punctuation == CharRange('!' as nat, 15) + CharRange(':' as nat, 7)
                         + CharRange('[' as nat, 6) + CharRange('{' as nat, 4)
  {
    var runs := CharRange('!' as nat, 15) + CharRange(':' as nat, 7)
              + CharRange('[' as nat, 6) + CharRange('{' as nat, 4);
    assert |runs| == |Punctuation|;
    forall k | 0 <= k < |runs| ensures runs[k] == Punctuation[k] {
      if k < 15 {
        assert runs[k] as int == 33 + k;
      } else if k < 22 {
        assert runs[k] as int == 58 + k - 15;
      } else if k < 28 {
        assert runs[k] as int == 91 + k - 22;
      } else {
        assert runs[k] as int == 123 + k - 28;
      }
    }
  }

  /** A character is in the alphabet exactly when it is an ASCII letter or
      digit, or, with `symbols`, ASCII punctuation. */
  lemma AlphabetMembers(symbols: bool, c: char)
    ensures c in Alphabet(symbols) <==> IsAsciiAlnum(c) || (symbols && IsAsciiPunctuation(c))
  {
    var a := Alphabet(symbols);
    if c in a {
      var k :| 0 <= k < |a| && a[k] == c;
      AlphabetOnlyHolds(symbols, k);
    }
    if IsAsciiAlnum(c) || (symbols && IsAsciiPunctuation(c)) {
      AlphabetHoldsAll(symbols, c);
    }
  }

  lemma AlphabetOnlyHolds(symbols: bool, k: int)
    requires 0 <= k < |Alphabet(symbols)|
    ensures IsAsciiAlnum(Alphabet(symbols)[k]) || (symbols && IsAsciiPunctuation(Alphabet(symbols)[k]))
  {
    var a := Alphabet(symbols);
    if k < 62 {
      assert a[k] == (AsciiLetters + Digits)[k];
    } else {
      PunctuationIsSymbolRuns();
      assert a[k] == Punctuation[k - 62];
    }
  }

  lemma AlphabetHoldsAll(symbols: bool, c: char)
    requires IsAsciiAlnum(c) || (symbols && IsAsciiPunctuation(c))
    ensures c in Alphabet(symbols)
  {
    var a := Alphabet(symbols);
    var base := AsciiLetters + Digits;
    assert base == a[..62];
    if IsAsciiAlnum(c) {
      BaseHoldsAlnum(c);
    } else {
      PunctuationHoldsAll(c);
      assert a == base + Punctuation;
    }
  }

  lemma BaseHoldsAlnum(c: char)
    requires IsAsciiAlnum(c)
    ensures c in AsciiLetters + Digits
  {
    if 'a' <= c <= 'z' {
      assert AsciiLetters[c as int - 'a' as int] == c;
    } else if 'A' <= c <= 'Z' {
      assert AsciiLetters[26 + c as int - 'A' as int] == c;
    } else {
      assert Digits[c as int - '0' as int] == c;
    }
  }

  lemma PunctuationHoldsAll(c: char)
    requires IsAsciiPunctuation(c)
    ensures c in Punctuation
  {
    PunctuationIsSymbolRuns();
    var k := if c <= '/' then c as int - 33
             else if c <= '@' then 15 + c as int - 58
             else if c <= '`' then 22 + c as int - 91
             else 28 + c as int - 123;
    assert Punctuation[k] == c;
  }

  /** No character appears twice, so every character is drawn with the same
      chance. */
  lemma AlphabetDistinct(symbols: bool)
    ensures forall i, j :: 0 <= i < j < |Alphabet(symbols)| ==> Alphabet(symbols)[i] != Alphabet(symbols)[j]
  {
    PunctuationIsSymbolRuns();
  }

  // ---------------------------------------------------------------------
  // Assembly

  /** Indices that are valid draws from `alphabet`. */
  predicate ValidPicks(alphabet: string, picks: seq<nat>) {
    forall i :: 0 <= i < |picks| ==> picks[i] < |alphabet|
  }

  /** `"".join(secrets.choice(characters) for _ in range(length))`, with the
      choices given as indices. */
  function Assemble(alphabet: string, picks: seq<nat>): (p: string)
    requires ValidPicks(alphabet, picks)
    ensures |p| == |picks|
    ensures forall i :: 0 <= i < |p| ==> p[i] == alphabet[picks[i]]
  {
    seq(|picks|, i requires 0 <= i < |picks| => alphabet[picks[i]])
  }

  /** How many characters `range(length)` draws. */
  function DrawCount(length: int): (n: nat)
    ensures length > 0 ==> n == length
    ensures length <= 0 ==> n == 0
  {
    if length > 0 then length else 0
  }

  /** The position of `c` in `s`, if any. */
  function IndexOf(s: string, c: char): (r: Option<nat>)
    ensures r.Some? ==> r.value < |s| && s[r.value] == c
    ensures r.None? <==> c !in s
  {
    if |s| == 0 then None
    else if s[0] == c then Some(0)
    else match IndexOf(s[1..], c)
      case None => None
      case Some(k) => Some(k + 1)
  }

  /** Every string over the alphabet is some sequence of draws: no password
      of the right length is out of reach. */
  lemma {:induction false} EveryPasswordReachable(alphabet: string, w: string)
    requires forall i :: 0 <= i < |w| ==> w[i] in alphabet
    ensures exists picks :: ValidPicks(alphabet, picks) && |picks| == |w| && Assemble(alphabet, picks) == w
  {
    var picks := seq(|w|, i requires 0 <= i < |w| => IndexOf(alphabet, w[i]).value);
    assert ValidPicks(alphabet, picks);
    assert Assemble(alphabet, picks) == w;
  }

  // ---------------------------------------------------------------------
  // The script

  newtype Byte = b: int | 0 <= b < 256

  /** The UTF-8 encoding of an ASCII string: one byte per character. */
  function AsciiBytes(s: string): (b: seq<Byte>)
    requires forall k :: 0 <= k < |s| ==> s[k] as int < 128
    ensures |b| == |s|
    ensures forall k :: 0 <= k < |s| ==> b[k] as int == s[k] as int
  {
    seq(|s|, k requires 0 <= k < |s| => s[k] as int as Byte)
  }

  /** bcrypt: `hashpw(password, salt)` and `checkpw(password, hashed)`. */
  datatype Bcrypt = Bcrypt(hashpw: (seq<Byte>, seq<Byte>) -> seq<Byte>, checkpw: (seq<Byte>, seq<Byte>) -> bool)

  /** What the script prints on success: the password and its hash. */
  datatype Generated = Generated(password: string, hashed: seq<Byte>)

  /** The whole script. `picks` are the indices `secrets.choice` draws and
      `salt` what `gensalt()` returns. */
  function Generate(length: int, symbols: bool, picks: seq<nat>, salt: seq<Byte>, bcrypt: Bcrypt)
    : (r: Result<Generated, string>)
    requires |picks| == DrawCount(length)
    requires ValidPicks(Alphabet(symbols), picks)
    ensures r.Err? <==>
      var bytes := AsciiBytes(Assemble(Alphabet(symbols), picks));
      !bcrypt.checkpw(bytes, bcrypt.hashpw(bytes, salt))
    ensures r.Err? ==> r.error == ErrorMessage
    ensures r.Ok? ==> r.value.password == Assemble(Alphabet(symbols), picks)
    ensures r.Ok? ==> |r.value.password| == DrawCount(length)
    ensures r.Ok? ==> forall i :: 0 <= i < |r.value.password| ==> r.value.password[i] in Alphabet(symbols)
    ensures r.Ok? ==> r.value.hashed == bcrypt.hashpw(AsciiBytes(r.value.password), salt)
  {
    var characters := Alphabet(symbols);
    var password := Assemble(characters, picks);
    var bytes := AsciiBytes(password);
    var hashed := bcrypt.hashpw(bytes, salt);
    if !bcrypt.checkpw(bytes, hashed) then Err(ErrorMessage)
    else Ok(Generated(password, hashed))
  }

  // ---------------------------------------------------------------------
  // Properties

  /** Without `--symbols` a password is letters and digits only. */
  lemma NoPunctuationWithoutSymbols(length: int, picks: seq<nat>, salt: seq<Byte>, bcrypt: Bcrypt)
    requires |picks| == DrawCount(length)
    requires ValidPicks(Alphabet(false), picks)
    requires Generate(length, false, picks, salt, bcrypt).Ok?
    ensures var p := Generate(length, false, picks, salt, bcrypt).value.password;
      forall i :: 0 <= i < |p| ==> IsAsciiAlnum(p[i]) && !IsAsciiPunctuation(p[i])
  {
    var p := Generate(length, false, picks, salt, bcrypt).value.password;
    forall i | 0 <= i < |p| ensures IsAsciiAlnum(p[i]) {
      AlphabetMembers(false, p[i]);
    }
  }

  /** A length of zero or below yields the empty password. */
  lemma NonPositiveLengthIsEmpty(length: int, symbols: bool, salt: seq<Byte>, bcrypt: Bcrypt)
    requires length <= 0
    requires Generate(length, symbols, [], salt, bcrypt).Ok?
    ensures Generate(length, symbols, [], salt, bcrypt).value.password == ""
  {
  }

  /** With no options, the password is 32 letters and digits. */
  lemma DefaultsGiveThirtyTwoAlnum(picks: seq<nat>, salt: seq<Byte>, bcrypt: Bcrypt)
    requires |picks| == DefaultLength
    requires ValidPicks(Alphabet(DefaultSymbols), picks)
    requires Generate(DefaultLength, DefaultSymbols, picks, salt, bcrypt).Ok?
    ensures var p := Generate(DefaultLength, DefaultSymbols, picks, salt, bcrypt).value.password;
      |p| == 32 && forall i :: 0 <= i < |p| ==> IsAsciiAlnum(p[i])
  {
    NoPunctuationWithoutSymbols(DefaultLength, picks, salt, bcrypt);
  }
}
