/** Issuing a self-signed certificate: the algorithm and key length choose a
    key, the certificate's subject and issuer are the same five-attribute
    name, its validity runs from one clock read to a second clock read plus
    the requested days, and the key and certificate are written as PEM files.
    Key generation, the serial number, signing and PEM encoding are opaque:
    their results are inputs here. */
module CertificateGenerator {
  import opened Wrappers
  import opened Text
  import PosixPath

  /** The values the `--key-length` option admits. */
  const KeyLengthChoices: set<int> := {256, 384, 2048, 4096}
  const RsaPublicExponent := 65537
  /** The smallest RSA key `rsa.generate_private_key` agrees to make. */
  const MinRsaKeySize := 1024
  const MicrosPerDay := 86_400_000_000
  const EcdsaLengthMessage := "Key length for ECDSA must be 256 or 384."
  const AlgorithmMessage := "Invalid algorithm specified. Use 'RSA' or 'ECDSA'."
  const KeyFileName := "certificate.key"
  const CertificateFileName := "certificate.crt"

  // ---------------------------------------------------------------------
  // Choosing the key

  datatype Curve = Secp256r1 | Secp384r1

  /** What is asked of the key generator. */
  datatype KeySpec = Rsa(publicExponent: int, keySize: int) | Ec(curve: Curve)

  function CurveBits(c: Curve): int {
    match c
    case Secp256r1 => 256
    case Secp384r1 => 384
  }

  /** The dispatch on `algorithm.upper()`. RSA takes any admitted length,
      256 and 384 included; ECDSA takes only 256 and 384. */
  function ChooseKey(algorithm: string, keyLength: int): (r: Result<KeySpec, string>)
    requires keyLength in KeyLengthChoices
    ensures r.Ok? <==> Upper(algorithm) == "RSA" || (Upper(algorithm) == "ECDSA" && keyLength in {256, 384})
    ensures r.Ok? && Upper(algorithm) == "RSA" ==> r.value == Rsa(RsaPublicExponent, keyLength)
    ensures r.Ok? && Upper(algorithm) == "ECDSA" ==> r.value.Ec? && CurveBits(r.value.curve) == keyLength
    ensures r.Err? && Upper(algorithm) == "ECDSA" ==> r.error == EcdsaLengthMessage
    ensures r.Err? && Upper(algorithm) != "ECDSA" ==> r.error == AlgorithmMessage
  {
    var alg := Upper(algorithm);
    if alg == "RSA" then Ok(Rsa(RsaPublicExponent, keyLength))
    else if alg == "ECDSA" then
      if keyLength !in {256, 384} then Err(EcdsaLengthMessage)
      else if keyLength == 256 then Ok(Ec(Secp256r1))
      else Ok(Ec(Secp384r1))
    else Err(AlgorithmMessage)
  }

  /** The algorithm name matters only up to case: any spelling asks for
      what its upper-case form asks for. */
  lemma ChooseKeyIgnoresCase(algorithm: string, keyLength: int)
    requires keyLength in KeyLengthChoices
    ensures ChooseKey(algorithm, keyLength) == ChooseKey(Upper(algorithm), keyLength)
  {
    UpperIdempotent(algorithm);
  }

  /** The key generator raises `ValueError` for an RSA key shorter than
      1024 bits, so the 256 and 384 the dispatch lets through never become a
      key. */
  predicate GeneratorRefuses(spec: KeySpec) {
    spec.Rsa? && spec.keySize < MinRsaKeySize
  }

  // ---------------------------------------------------------------------
  // The certificate

  datatype NameOid = CountryName | StateOrProvinceName | LocalityName | OrganizationName | CommonName
  datatype NameAttribute = NameAttribute(oid: NameOid, value: string)

  /** The subject fields from the command line. */
  datatype SubjectInfo = SubjectInfo(country: string, state: string, locality: string, organization: string, name: string)

  /** The option defaults. */
  const DefaultSubject := SubjectInfo("DE", "Bavaria", "Munich", "appliedAI Initiative GmbH", "Self-Signed Certificate")

  datatype BasicConstraints = BasicConstraints(ca: bool, pathLength: Option<nat>)
  datatype Extension = Extension(constraints: BasicConstraints, critical: bool)
  datatype Digest = Sha256

  /** Key material from the generator; its bytes are opaque. */
  datatype KeyPair = KeyPair(privateKey: seq<bv8>, publicKey: seq<bv8>)

  /** The signed certificate, described by what went into it. Times are
      microseconds on the UTC clock; `signedWith` is the private key. */
  datatype Certificate = Certificate(
    subject: seq<NameAttribute>,
    issuer: seq<NameAttribute>,
    keySpec: KeySpec,
    publicKey: seq<bv8>,
    serial: nat,
    notBefore: int,
    notAfter: int,
    extensions: seq<Extension>,
    signedWith: seq<bv8>,
    digest: Digest)

  const SubjectOrder := [CountryName, StateOrProvinceName, LocalityName, OrganizationName, CommonName]

  function SubjectName(info: SubjectInfo): seq<NameAttribute> {
    [ NameAttribute(CountryName, info.country),
      NameAttribute(StateOrProvinceName, info.state),
      NameAttribute(LocalityName, info.locality),
      NameAttribute(OrganizationName, info.organization),
      NameAttribute(CommonName, info.name) ]
  }

  /** The number of bytes `s.encode("utf8")` gives. */
  function Utf8Length(s: string): (n: nat)
    ensures |s| <= n <= 4 * |s|
    ensures (forall k :: 0 <= k < |s| ==> s[k] as int < 0x80) ==> n == |s|
  {
    if |s| == 0 then 0
    else
      var c := s[0] as int;
      (if c < 0x80 then 1 else if c < 0x800 then 2 else if c < 0x1_0000 then 3 else 4)
      + Utf8Length(s[1..])
  }

  /** Encoding a concatenation takes the bytes of both parts. */
  lemma {:induction false} Utf8LengthAppend(a: string, b: string)
    ensures Utf8Length(a + b) == Utf8Length(a) + Utf8Length(b)
  {
    if |a| > 0 {
      assert (a + b)[0] == a[0];
      assert (a + b)[1..] == a[1..] + b;
      Utf8LengthAppend(a[1..], b);
    } else {
      assert a + b == b;
    }
  }

  /** The length bounds `x509.NameAttribute` puts on a value, counted in
      UTF-8 bytes: exactly 2 for a country code, 1 to 64 for a common name,
      none for the other three attribute types. */
  predicate AttributeAccepted(a: NameAttribute) {
    match a.oid
    case CountryName => Utf8Length(a.value) == 2
    case CommonName => 1 <= Utf8Length(a.value) <= 64
    case _ => true
  }

  /** The index of the first attribute the library refuses, in list order. */
  function FirstRefused(names: seq<NameAttribute>): (r: Option<nat>)
    ensures r.None? <==> forall k :: 0 <= k < |names| ==> AttributeAccepted(names[k])
    ensures r.Some? ==> r.value < |names| && !AttributeAccepted(names[r.value])
    ensures r.Some? ==> forall k :: 0 <= k < r.value ==> AttributeAccepted(names[k])
  {
    if |names| == 0 then None
    else if !AttributeAccepted(names[0]) then Some(0)
    else
      match FirstRefused(names[1..])
      case None => None
      case Some(i) => Some(i + 1)
  }

  /** The attribute type whose value stops the subject being built, if any.
      The country code comes first in the subject, so it is reported ahead
      of the common name. */
  function SubjectRefusal(info: SubjectInfo): (r: Option<NameOid>)
    ensures r.None? <==> Utf8Length(info.country) == 2 && 1 <= Utf8Length(info.name) <= 64
    ensures Utf8Length(info.country) != 2 ==> r == Some(CountryName)
    ensures Utf8Length(info.country) == 2 && !(1 <= Utf8Length(info.name) <= 64) ==> r == Some(CommonName)
  {
    var names := SubjectName(info);
    assert names[0] == NameAttribute(CountryName, info.country);
    assert names[4] == NameAttribute(CommonName, info.name);
    assert forall k :: 1 <= k < 4 ==> AttributeAccepted(names[k]);
    match FirstRefused(names)
    case None => None
    case Some(i) => Some(names[i].oid)
  }

  /** The command-line value that goes with each attribute type. */
  function Field(info: SubjectInfo, oid: NameOid): string {
    match oid
    case CountryName => info.country
    case StateOrProvinceName => info.state
    case LocalityName => info.locality
    case OrganizationName => info.organization
    case CommonName => info.name
  }

  /** Why the script stops: an `error_and_exit` message, or one of the
      `ValueError`s the library raises: for an RSA key that is too short,
      for a subject value outside its length bounds, and in the certificate
      builder when `not_valid_after` is earlier than `not_valid_before`. */
  datatype Failure =
    | Exit(message: string)
    | KeyTooShort(keySize: int)
    | InvalidAttribute(oid: NameOid)
    | ValidityBeforeStart

  /** Build and sign the certificate. `firstClock` and `secondClock` are the
      two `utcnow()` reads, in that order; `serial` is the random serial. */
  function BuildCertificate(
    spec: KeySpec, key: KeyPair, info: SubjectInfo, validityDays: int,
    serial: nat, firstClock: int, secondClock: int): (r: Result<Certificate, Failure>)
    ensures r.Err? <==> SubjectRefusal(info).Some? || secondClock + validityDays * MicrosPerDay < firstClock
    ensures SubjectRefusal(info).Some? ==> r == Err(InvalidAttribute(SubjectRefusal(info).value))
    ensures SubjectRefusal(info).None? && r.Err? ==> r == Err(ValidityBeforeStart)
    ensures r.Ok? ==> var c := r.value;
      && |c.subject| == 5
      && (forall k :: 0 <= k < 5 ==> c.subject[k].oid == SubjectOrder[k])
      && (forall k :: 0 <= k < 5 ==> c.subject[k].value == Field(info, c.subject[k].oid))
      && c.issuer == c.subject
      && c.publicKey == key.publicKey && c.signedWith == key.privateKey && c.keySpec == spec
      && c.serial == serial
      && c.notBefore == firstClock && c.notBefore <= c.notAfter
      && c.notAfter - secondClock == validityDays * MicrosPerDay
      && c.extensions == [Extension(BasicConstraints(true, None), true)]
      && c.digest == Sha256
  {
    var refused := SubjectRefusal(info);
    if refused.Some? then Err(InvalidAttribute(refused.value)) else
    var subject := SubjectName(info);
    var notAfter := secondClock + validityDays * MicrosPerDay;
    if notAfter < firstClock then Err(ValidityBeforeStart)
    else
      Ok(Certificate(
        subject, subject, spec, key.publicKey, serial, firstClock, notAfter,
        [Extension(BasicConstraints(true, None), true)],
        key.privateKey, Sha256))
  }

  // ---------------------------------------------------------------------
  // Output files

  /** The directory the files go to: "." means the working directory, and a
      leading `~` is expanded. */
  function OutputDir(path: string, cwd: string, home: string, homes: map<string, string>): (dir: string)
    ensures path == "." && !StartsWith(cwd, "~") ==> dir == cwd
    ensures path != "." && !StartsWith(path, "~") ==> dir == path
    ensures StartsWith(path, "~/") ==> dir == PosixPath.RightStripSlashes(home) + path[1..]
  {
    assert StartsWith(path, "~/") ==> path != "." && StartsWith(path, "~") by {
      if StartsWith(path, "~/") { assert path[0] == '~'; }
    }
    PosixPath.ExpandUser(if path == "." then cwd else path, home, homes)
  }

  /** `p` names `a` and `q` names `b` in one directory. */
  predicate SameDirectory(p: string, a: string, q: string, b: string) {
    EndsWith(p, a) && EndsWith(q, b) && p[..|p| - |a|] == q[..|q| - |b|]
  }

  datatype Artifact = PemPrivateKey(key: KeyPair) | PemCertificate(certificate: Certificate)
  datatype FileWrite = FileWrite(path: string, artifact: Artifact)

  /** The command-line options. */
  datatype Options = Options(
    keyLength: int, validityDays: int, algorithm: string, subject: SubjectInfo, path: string)

  /** What the generator and the surroundings supply: the key generator, the
      serial, the two clock reads, the working directory and home directories. */
  datatype Environment = Environment(
    generate: KeySpec -> KeyPair, serial: nat, firstClock: int, secondClock: int,
    cwd: string, home: string, homes: map<string, string>)

  /** The key choice passes and the generator makes the key. */
  predicate KeyMade(opts: Options)
    requires opts.keyLength in KeyLengthChoices
  {
    ChooseKey(opts.algorithm, opts.keyLength).Ok? && !GeneratorRefuses(ChooseKey(opts.algorithm, opts.keyLength).value)
  }

  /** The whole script: the key then the certificate are written into the
      output directory, or the failure it stops with before writing. */
  function Issue(opts: Options, env: Environment): (r: Result<seq<FileWrite>, Failure>)
    requires opts.keyLength in KeyLengthChoices
    ensures r.Err? <==> || ChooseKey(opts.algorithm, opts.keyLength).Err?
                        || (Upper(opts.algorithm) == "RSA" && opts.keyLength < MinRsaKeySize)
                        || SubjectRefusal(opts.subject).Some?
                        || env.secondClock + opts.validityDays * MicrosPerDay < env.firstClock
    ensures ChooseKey(opts.algorithm, opts.keyLength).Err? ==>
      r == Err(Exit(ChooseKey(opts.algorithm, opts.keyLength).error))
    ensures Upper(opts.algorithm) == "RSA" && opts.keyLength < MinRsaKeySize ==> r == Err(KeyTooShort(opts.keyLength))
    ensures KeyMade(opts) && SubjectRefusal(opts.subject).Some? ==>
      r == Err(InvalidAttribute(SubjectRefusal(opts.subject).value))
    ensures KeyMade(opts) && SubjectRefusal(opts.subject).None? && r.Err? ==> r == Err(ValidityBeforeStart)
    ensures r.Ok? ==> var dir := OutputDir(opts.path, env.cwd, env.home, env.homes);
      && |r.value| == 2
      && r.value[0].path == PosixPath.Join(dir, KeyFileName)
      && r.value[1].path == PosixPath.Join(dir, CertificateFileName)
      && SameDirectory(r.value[0].path, KeyFileName, r.value[1].path, CertificateFileName)
    ensures r.Ok? ==> var spec := ChooseKey(opts.algorithm, opts.keyLength).value;
      var key := env.generate(spec);
      && r.value[0].artifact == PemPrivateKey(key)
      && r.value[1].artifact == PemCertificate(BuildCertificate(spec, key, opts.subject,
           opts.validityDays, env.serial, env.firstClock, env.secondClock).value)
  {
    var choice := ChooseKey(opts.algorithm, opts.keyLength);
    if choice.Err? then Err(Exit(choice.error)) else
    var spec := choice.value;
    if GeneratorRefuses(spec) then Err(KeyTooShort(spec.keySize)) else
    var key := env.generate(spec);
    var cert :- BuildCertificate(spec, key, opts.subject, opts.validityDays,
      env.serial, env.firstClock, env.secondClock);
    var dir := OutputDir(opts.path, env.cwd, env.home, env.homes);
    assert !StartsWith(KeyFileName, "/") && !StartsWith(CertificateFileName, "/") by {
      assert KeyFileName[0] == 'c' && CertificateFileName[0] == 'c';
    }
    Ok([ FileWrite(PosixPath.Join(dir, KeyFileName), PemPrivateKey(key)),
         FileWrite(PosixPath.Join(dir, CertificateFileName), PemCertificate(cert)) ])
  }

  // ---------------------------------------------------------------------
  // Properties

  /** With a clock that does not run backwards and a non-negative period, the
      certificate is issued and its window lasts at least the requested days;
      the second clock read can only lengthen it. */
  lemma ValidityWindow(opts: Options, env: Environment)
    requires opts.keyLength in KeyLengthChoices
    requires ChooseKey(opts.algorithm, opts.keyLength).Ok?
    requires Upper(opts.algorithm) == "RSA" ==> opts.keyLength >= MinRsaKeySize
    requires SubjectRefusal(opts.subject).None?
    requires env.firstClock <= env.secondClock && opts.validityDays >= 0
    ensures Issue(opts, env).Ok?
    ensures var c := Issue(opts, env).value[1].artifact.certificate;
      && c.notAfter - c.notBefore >= opts.validityDays * MicrosPerDay
      && (env.firstClock == env.secondClock ==> c.notAfter - c.notBefore == opts.validityDays * MicrosPerDay)
  {
  }

  /** A negative period stops the script in the certificate builder, unless
      the clock advanced by more than the period between its two reads. */
  lemma NegativeValidityRejected(opts: Options, env: Environment)
    requires opts.keyLength in KeyLengthChoices
    requires ChooseKey(opts.algorithm, opts.keyLength).Ok?
    requires Upper(opts.algorithm) == "RSA" ==> opts.keyLength >= MinRsaKeySize
    requires SubjectRefusal(opts.subject).None?
    requires opts.validityDays < 0 && 0 <= env.secondClock - env.firstClock < MicrosPerDay
    ensures Issue(opts, env) == Err(ValidityBeforeStart)
  {
  }

  /** The key and the certificate are distinct files. */
  lemma OutputFilesDistinct(opts: Options, env: Environment)
    requires opts.keyLength in KeyLengthChoices
    requires Issue(opts, env).Ok?
    ensures Issue(opts, env).value[0].path != Issue(opts, env).value[1].path
  {
    var w := Issue(opts, env).value;
    var p, q := w[0].path, w[1].path;
    assert EndsWith(p, KeyFileName) && EndsWith(q, CertificateFileName);
    assert p[|p| - 1] == p[|p| - |KeyFileName|..][|KeyFileName| - 1] == 'y';
    assert q[|q| - 1] == q[|q| - |CertificateFileName|..][|CertificateFileName| - 1] == 't';
  }

  /** An output path of "." writes both files into the working directory. */
  lemma DotIsWorkingDirectory(opts: Options, env: Environment)
    requires opts.keyLength in KeyLengthChoices
    requires Issue(opts, env).Ok?
    requires opts.path == "." && !StartsWith(env.cwd, "~")
    ensures Issue(opts, env).value[0].path == PosixPath.Join(env.cwd, KeyFileName)
    ensures Issue(opts, env).value[1].path == PosixPath.Join(env.cwd, CertificateFileName)
  {
  }

  /** An output path under `~/` writes below the home directory. */
  lemma TildeIsHome(opts: Options, env: Environment)
    requires opts.keyLength in KeyLengthChoices
    requires ChooseKey(opts.algorithm, opts.keyLength).Ok?
    requires Upper(opts.algorithm) == "RSA" ==> opts.keyLength >= MinRsaKeySize
    requires SubjectRefusal(opts.subject).None?
    requires env.firstClock <= env.secondClock + opts.validityDays * MicrosPerDay
    requires StartsWith(opts.path, "~/")
    ensures Issue(opts, env).Ok?
    ensures var dir := PosixPath.RightStripSlashes(env.home) + opts.path[1..];
      && Issue(opts, env).value[0].path == PosixPath.Join(dir, KeyFileName)
      && Issue(opts, env).value[1].path == PosixPath.Join(dir, CertificateFileName)
  {
  }

  /** RSA at 256 or 384 bits passes the dispatch but not the key generator:
      nothing is written. */
  lemma ShortRsaRefused(opts: Options, env: Environment)
    requires opts.keyLength in {256, 384} && Upper(opts.algorithm) == "RSA"
    ensures Issue(opts, env) == Err(KeyTooShort(opts.keyLength))
  {
  }

  /** A country code must be two bytes long in UTF-8: "DE" and "Ü" pass,
      "DEU" does not; the script's default subject passes. */
  lemma CountryCodeIsTwoBytes()
    ensures SubjectRefusal(DefaultSubject).None?
    ensures SubjectRefusal(DefaultSubject.(country := "\U{DC}")).None?
    ensures SubjectRefusal(DefaultSubject.(country := "DEU")) == Some(CountryName)
    ensures SubjectRefusal(DefaultSubject.(name := "")) == Some(CommonName)
  {
    DefaultNameLength();
    assert Utf8Length("DE") == 2;
    assert Utf8Length("\U{DC}") == 2;
    assert Utf8Length("DEU") == 3;
  }

  lemma DefaultNameLength()
    ensures Utf8Length(DefaultSubject.name) == 23
  {
    var s := DefaultSubject.name;
    assert forall k :: 0 <= k < |s| ==> s[k] as int < 0x80;
  }

  /** The algorithm name is matched in any case, and RSA gets no size check
      of its own: "rsa" with 256 bits asks for a 256-bit RSA key. */
  lemma RsaTakesAnyAdmittedLength()
    ensures ChooseKey("rsa", 256) == Ok(Rsa(65537, 256))
    ensures ChooseKey("Ecdsa", 2048) == Err(EcdsaLengthMessage)
    ensures ChooseKey("DSA", 2048) == Err(AlgorithmMessage)
  {
    assert Upper("rsa") == "RSA";
    assert Upper("Ecdsa") == "ECDSA";
    assert Upper("DSA") == "DSA";
  }
}
