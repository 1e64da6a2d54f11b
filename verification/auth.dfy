/** The registration validator and the credential codec: field-level checks on
    a registration, and the salted password derivation with its verifier. */
module Auth {
  import opened Wrappers
  import opened Types
  import Base64

  // ---------------------------------------------------------------------------
  // Registration validation
  // ---------------------------------------------------------------------------

  datatype UserRegisterInput = UserRegisterInput(email: string, name: string, password: string)

  const EmailMsg := "No es un email valido!"
  const NameMsg := "Tu nombre debe tener entre 10 y 100 caracteres!"
  const PasswordMsg := "La contrasena debe tener entre 5 y 30 caracteres!"

  /** `validator.isEmpty` with its default options: the string has no characters. */
  predicate IsEmpty(s: string) {
    |s| == 0
  }

  /** `validator.isLength(s, {min, max})`: the character count lies in [min, max]. */
  predicate IsLength(s: string, min: nat, max: nat) {
    min <= |s| <= max
  }

  const EmailError := MutationError(Email, EmailMsg)
  const NameError := MutationError(Name, NameMsg)
  const PasswordError := MutationError(Password, PasswordMsg)

  /** Position of a field in the order the validator checks them. */
  function FieldRank(path: Path): nat {
    match path
    case Email => 0
    case Name => 1
    case _ => 2
  }

  /** Some error in the list is tagged with `path`. */
  predicate HasErrorAt(errors: seq<MutationError>, path: Path) {
    exists e :: e in errors && e.path == path
  }

  /** One check of the validator: its error if the check failed. */
  function Check(failed: bool, error: MutationError): seq<MutationError> {
    if failed then [error] else []
  }

  /** The validator: every check runs, and the errors come out in check order,
      at most one per field, each field with its own message. A field reports
      an error exactly when its own constraint fails; for the name and the
      password the emptiness test is subsumed by the lower bound.
      `isEmail` stands for `validator.isEmail`. */
  function ValidateRegister(data: UserRegisterInput, isEmail: string -> bool): (errors: seq<MutationError>)
    ensures |errors| <= 3
    ensures forall i :: 0 <= i < |errors| ==> errors[i] in [EmailError, NameError, PasswordError]
    ensures forall i, j :: 0 <= i < j < |errors| ==> FieldRank(errors[i].path) < FieldRank(errors[j].path)
    ensures HasErrorAt(errors, Email) <==> data.email == "" || !isEmail(data.email)
    ensures HasErrorAt(errors, Name) <==> |data.name| < 10 || 100 < |data.name|
    ensures HasErrorAt(errors, Password) <==> |data.password| < 5 || 30 < |data.password|
  {
    var badEmail := IsEmpty(data.email) || !isEmail(data.email);
    var badName := IsEmpty(data.name) || !IsLength(data.name, 10, 100);
    var badPassword := IsEmpty(data.password) || !IsLength(data.password, 5, 30);
    ThreeChecks(badEmail, badName, badPassword);
    Check(badEmail, EmailError) + Check(badName, NameError) + Check(badPassword, PasswordError)
  }

  /** The shape of the validator's output given which of its three checks failed. */
  lemma ThreeChecks(badEmail: bool, badName: bool, badPassword: bool)
    ensures var errors := Check(badEmail, EmailError) + Check(badName, NameError) + Check(badPassword, PasswordError);
      && |errors| <= 3
      && (forall i :: 0 <= i < |errors| ==> errors[i] in [EmailError, NameError, PasswordError])
      && (forall i, j :: 0 <= i < j < |errors| ==> FieldRank(errors[i].path) < FieldRank(errors[j].path))
      && (HasErrorAt(errors, Email) <==> badEmail)
      && (HasErrorAt(errors, Name) <==> badName)
      && (HasErrorAt(errors, Password) <==> badPassword)
  {
  }

  /** The name bounds are inclusive: 10 and 100 characters pass, 9 and 101 fail. */
  lemma NameBoundaries(data: UserRegisterInput, isEmail: string -> bool)
    ensures |data.name| == 10 || |data.name| == 100 ==> !HasErrorAt(ValidateRegister(data, isEmail), Name)
    ensures |data.name| == 9 || |data.name| == 101 ==> HasErrorAt(ValidateRegister(data, isEmail), Name)
  {
  }

  /** The password bounds are inclusive, and an empty password always errors. */
  lemma PasswordBoundaries(data: UserRegisterInput, isEmail: string -> bool)
    ensures |data.password| == 5 || |data.password| == 30 ==> !HasErrorAt(ValidateRegister(data, isEmail), Password)
    ensures |data.password| == 0 || |data.password| == 4 || |data.password| == 31 ==>
      HasErrorAt(ValidateRegister(data, isEmail), Password)
  {
  }

  /** No check short-circuits another: whether a field errors depends on that field alone. */
  lemma ChecksIndependent(a: UserRegisterInput, b: UserRegisterInput, isEmail: string -> bool)
    ensures a.email == b.email ==>
      (HasErrorAt(ValidateRegister(a, isEmail), Email) <==> HasErrorAt(ValidateRegister(b, isEmail), Email))
    ensures a.name == b.name ==>
      (HasErrorAt(ValidateRegister(a, isEmail), Name) <==> HasErrorAt(ValidateRegister(b, isEmail), Name))
    ensures a.password == b.password ==>
      (HasErrorAt(ValidateRegister(a, isEmail), Password) <==> HasErrorAt(ValidateRegister(b, isEmail), Password))
  {
  }

  /** A registration failing every check reports all three fields, in order. */
  lemma AllChecksFail(isEmail: string -> bool)
    requires !isEmail("not-an-email")
    ensures var errors := ValidateRegister(UserRegisterInput("not-an-email", "short", ""), isEmail);
            |errors| == 3 && errors[0].path == Email && errors[1].path == Name && errors[2].path == Password
  {
    var errors := ValidateRegister(UserRegisterInput("not-an-email", "short", ""), isEmail);
    assert HasErrorAt(errors, Email) && HasErrorAt(errors, Name) && HasErrorAt(errors, Password);
  }

  /** Exactly-minimal name and password with a valid email produce no errors. */
  lemma MinimalInputPasses(isEmail: string -> bool)
    requires isEmail("a@b.com")
    ensures ValidateRegister(UserRegisterInput("a@b.com", "1234567890", "abcde"), isEmail) == []
  {
  }

  // ---------------------------------------------------------------------------
  // Credential codec
  // ---------------------------------------------------------------------------

  type byte = Base64.byte

  /** Output of `pbkdf2Sync(secret, salt, 10000, 64, 'sha1')`: 64 bytes. */
  type Digest = d: seq<byte> | |d| == 64 witness seq(64, i => 0)

  /** Output of `randomBytes(16)`. */
  type SaltBytes = s: seq<byte> | |s| == 16 witness seq(16, i => 0)

  /** The key-derivation function (PBKDF2, section 5.2 of RFC 8018, with SHA-1,
      10000 iterations and a 64-byte key), left uninterpreted: any deterministic
      function from (secret, salt) to 64 bytes. */
  type Kdf = (string, string) -> Digest

  /** The two provider secrets read from the environment (`GOOGLE_PASS`, `GITHUB_PASS`). */
  datatype Env = Env(googlePass: Option<string>, githubPass: Option<string>)

  /** Both provider secrets are set to non-empty strings. */
  predicate ProviderSecretsSet(env: Env) {
    Truthy(env.googlePass) && Truthy(env.githubPass)
  }

  /** Column lengths of `users.salt` and `users.password`. */
  const SaltColumnLength := 30
  const PasswordColumnLength := 100

  const MissingSecretsMsg := "Variables de entorno google pass y github pass no definidas..."

  /** What is stored: base64 of the derived key and base64 of the salt. */
  datatype Credentials = Credentials(password: string, salt: string)

  /** The secret the codec hashes, following the source's assignments in order:
      start from the password, overwrite with the GitHub secret if `github`,
      then with the Google secret if `google`. */
  function FinalPass(env: Env, password: string, github: bool, google: bool): string
    requires ProviderSecretsSet(env)
  {
    var finalPass := password;
    var finalPass := if github then env.githubPass.value else finalPass;
    var finalPass := if google then env.googlePass.value else finalPass;
    finalPass
  }

  /** The codec step: base64 of the random salt bytes, and base64 of the key
      derived from `secret` under that salt text. */
  function Derive(kdf: Kdf, secret: string, random: SaltBytes): (c: Credentials)
    ensures c.salt == Base64.Encode(random)
    ensures c.password == Base64.Encode(kdf(secret, c.salt))
    ensures |c.salt| == 24 && |c.password| == 88
    ensures Base64.Decode(c.salt) == Some(random)
    ensures Base64.Decode(c.password) == Some(kdf(secret, c.salt))
  {
    var salt := Base64.Encode(random);
    var digest := kdf(secret, salt);
    var key := Base64.Encode(digest);
    assert |salt| == Base64.EncodedLength(16) == 24;
    assert |key| == Base64.EncodedLength(64) == 88;
    Base64.DecodeEncode(random);
    Base64.DecodeEncode(digest);
    Credentials(key, salt)
  }

  /** `getEncryptedCredentials`: `random` is the 16 bytes the random generator returned. */
  function GetEncryptedCredentials(env: Env, kdf: Kdf, random: SaltBytes, password: string,
                                   github: bool, google: bool): (r: Result<Credentials, string>)
    ensures r.Failure? <==> !ProviderSecretsSet(env)
    ensures r.Failure? ==> r.error == MissingSecretsMsg
    ensures r.Success? ==>
      && r.value.salt == Base64.Encode(random)
      && |r.value.salt| == 24 <= SaltColumnLength
      && |r.value.password| == 88 <= PasswordColumnLength
      && Base64.Decode(r.value.salt) == Some(random)
      && Base64.Decode(r.value.password) == Some(kdf(FinalPass(env, password, github, google), r.value.salt))
    ensures r.Success? && !github && !google ==>
      r.value.password == Base64.Encode(kdf(password, r.value.salt))
    ensures r.Success? && github && !google ==>
      r.value.password == Base64.Encode(kdf(env.githubPass.value, r.value.salt))
    ensures r.Success? && google ==>
      r.value.password == Base64.Encode(kdf(env.googlePass.value, r.value.salt))
  {
    if !ProviderSecretsSet(env) then
      Failure(MissingSecretsMsg)
    else
      Success(Derive(kdf, FinalPass(env, password, github, google), random))
  }

  /** `verifyPassword`: re-derive with the stored salt and compare the encodings. */
  function VerifyPassword(kdf: Kdf, inputPassword: string, encryptedPassword: string, salt: string): (ok: bool)
    ensures ok ==> |encryptedPassword| == 88
    ensures ok ==> Base64.Decode(encryptedPassword) == Some(kdf(inputPassword, salt))
  {
    Base64.DecodeEncode(kdf(inputPassword, salt));
    encryptedPassword == Base64.Encode(kdf(inputPassword, salt))
  }

  /** Round trip: a local password verifies against the credentials derived from it,
      and any other input verifies exactly when it derives the same key. */
  lemma VerifyIssuedCredentials(env: Env, kdf: Kdf, random: SaltBytes, password: string, input: string)
    requires ProviderSecretsSet(env)
    ensures var c := GetEncryptedCredentials(env, kdf, random, password, false, false).value;
            && VerifyPassword(kdf, password, c.password, c.salt)
            && (VerifyPassword(kdf, input, c.password, c.salt) <==> kdf(input, c.salt) == kdf(password, c.salt))
  {
  }

  /** With a provider flag set, the supplied password plays no part. */
  lemma ProviderIgnoresPassword(env: Env, kdf: Kdf, random: SaltBytes, p: string, q: string,
                                github: bool, google: bool)
    requires github || google
    ensures GetEncryptedCredentials(env, kdf, random, p, github, google)
         == GetEncryptedCredentials(env, kdf, random, q, github, google)
  {
  }

  /** The Google flag wins over the GitHub flag: the later assignment overwrites. */
  lemma GoogleOverridesGithub(env: Env, kdf: Kdf, random: SaltBytes, p: string)
    ensures GetEncryptedCredentials(env, kdf, random, p, true, true)
         == GetEncryptedCredentials(env, kdf, random, p, false, true)
  {
  }

  /** Distinct random draws give distinct stored salts. */
  lemma FreshSaltsDiffer(env: Env, kdf: Kdf, r1: SaltBytes, r2: SaltBytes, p: string, github: bool, google: bool)
    requires ProviderSecretsSet(env) && r1 != r2
    ensures GetEncryptedCredentials(env, kdf, r1, p, github, google).value.salt
         != GetEncryptedCredentials(env, kdf, r2, p, github, google).value.salt
  {
  }
}
