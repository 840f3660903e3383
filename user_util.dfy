/**
 * User helpers: the password-strength rule applied at sign-up, and the two
 * converters between the application's user document and the identity
 * provider's `user_metadata` object.
 */
module UserUtil {
  import opened Wrappers

  // ---- checkPasswordStrength ----

  const MinLength: nat := 8

  /** The character class `[!@#$%^&*(),.?":{}|<>]`. */
  const SpecialChars: string := "!@#$%^&*(),.?\":{}|<>"

  predicate HasUpper(p: string) {
    exists i :: 0 <= i < |p| && 'A' <= p[i] <= 'Z'
  }

  predicate HasLower(p: string) {
    exists i :: 0 <= i < |p| && 'a' <= p[i] <= 'z'
  }

  predicate HasDigit(p: string) {
    exists i :: 0 <= i < |p| && '0' <= p[i] <= '9'
  }

  predicate HasSpecial(p: string) {
    exists i :: 0 <= i < |p| && p[i] in SpecialChars
  }

  /** The five rules, reported in the order they are checked. */
  datatype PasswordError = TooShort | NoUppercase | NoLowercase | NoDigit | NoSpecial

  predicate Strong(p: string) {
    |p| >= MinLength && HasUpper(p) && HasLower(p) && HasDigit(p) && HasSpecial(p)
  }

  /** `checkPasswordStrength`: `true`, or the first rule the password breaks. */
  function CheckPasswordStrength(p: string): (r: Result<bool, PasswordError>)
    ensures r.Ok? <==> Strong(p)
    ensures r.Ok? ==> r.value
    ensures r == Err(TooShort) <==> |p| < MinLength
    ensures r == Err(NoUppercase) <==> |p| >= MinLength && !HasUpper(p)
    ensures r == Err(NoLowercase) <==> |p| >= MinLength && HasUpper(p) && !HasLower(p)
    ensures r == Err(NoDigit) <==> |p| >= MinLength && HasUpper(p) && HasLower(p) && !HasDigit(p)
    ensures r == Err(NoSpecial) <==> |p| >= MinLength && HasUpper(p) && HasLower(p) && HasDigit(p) && !HasSpecial(p)
  {
    if |p| < MinLength then Err(TooShort)
    else if !HasUpper(p) then Err(NoUppercase)
    else if !HasLower(p) then Err(NoLowercase)
    else if !HasDigit(p) then Err(NoDigit)
    else if !HasSpecial(p) then Err(NoSpecial)
    else Ok(true)
  }

  /** Adding characters never makes a strong password weak. */
  lemma StrengthSurvivesExtension(p: string, q: string)
    requires Strong(p)
    ensures Strong(p + q)
  {
    var u :| 0 <= u < |p| && 'A' <= p[u] <= 'Z';
    var l :| 0 <= l < |p| && 'a' <= p[l] <= 'z';
    var d :| 0 <= d < |p| && '0' <= p[d] <= '9';
    var s :| 0 <= s < |p| && p[s] in SpecialChars;
    assert (p + q)[u] == p[u] && (p + q)[l] == p[l] && (p + q)[d] == p[d] && (p + q)[s] == p[s];
  }

  // ---- the converters ----

  const DefaultRole: string := "reader"

  /** `s || null`. */
  function OrNull(s: Option<string>): (r: Option<string>)
    ensures Truthy(s) ==> r == s
    ensures !Truthy(s) ==> r == None
  {
    if Truthy(s) then s else None
  }

  /** `b || false`. */
  function OrFalse(b: Option<bool>): (r: bool)
    ensures r <==> b == Some(true)
  {
    b == Some(true)
  }

  /** `role || Role.READER`. */
  function RoleOrReader(role: Option<string>): (r: string)
    ensures r != ""
    ensures Truthy(role) ==> r == role.value
    ensures !Truthy(role) ==> r == DefaultRole
  {
    if Truthy(role) then role.value else DefaultRole
  }

  /**
   * The application's user document. Dates are instants in milliseconds; a
   * present date object is truthy, so only an absent one falls back.
   */
  datatype AppUser = AppUser(
    email: Option<string>,
    phone: Option<string>,
    firstName: Option<string>,
    lastName: Option<string>,
    dateOfBirth: Option<int>,
    address: Option<string>,
    emailVerified: Option<bool>,
    phoneVerified: Option<bool>,
    isActive: Option<bool>,
    avatarUrl: Option<string>,
    role: Option<string>,
    createdAt: Option<int>)

  /** The identity provider's `user_metadata` object. */
  datatype Metadata = Metadata(
    email: Option<string>,
    phone: Option<string>,
    first_name: Option<string>,
    last_name: Option<string>,
    date_of_birth: Option<int>,
    address: Option<string>,
    email_verified: Option<bool>,
    phone_verified: Option<bool>,
    is_active: Option<bool>,
    avatar_url: Option<string>,
    role: Option<string>,
    created_at: Option<int>)

  /** The identity provider's user: its id and, normally, its metadata. */
  datatype ProviderUser = ProviderUser(id: string, user_metadata: Option<Metadata>)

  /** What `convertToUser` returns (before it is stored as a user document). */
  datatype UserDoc = UserDoc(
    id: string,
    email: Option<string>,
    phone: Option<string>,
    firstName: Option<string>,
    lastName: Option<string>,
    dateOfBirth: Option<int>,
    address: Option<string>,
    emailVerified: Option<bool>,
    phoneVerified: Option<bool>,
    isActive: bool,
    avatarUrl: Option<string>,
    role: string)

  /**
   * `convertToSupabaseUser`: falsy optional fields become `null`, the verified
   * flags `false`, the role the reader role and the creation date `now`;
   * `is_active` is always true, whatever the input says.
   */
  function ConvertToSupabaseUser(u: AppUser, now: int): (m: Metadata)
    ensures m.email == OrNull(u.email) && m.phone == OrNull(u.phone)
    ensures m.first_name == OrNull(u.firstName) && m.last_name == OrNull(u.lastName)
    ensures m.address == OrNull(u.address) && m.avatar_url == OrNull(u.avatarUrl)
    ensures m.date_of_birth == u.dateOfBirth
    ensures m.email_verified == Some(u.emailVerified == Some(true))
    ensures m.phone_verified == Some(u.phoneVerified == Some(true))
    ensures m.is_active == Some(true)
    ensures m.role.Some? && Truthy(m.role)
    ensures Truthy(u.role) ==> m.role == u.role
    ensures m.created_at == Some(if u.createdAt.Some? then u.createdAt.value else now)
  {
    Metadata(
      OrNull(u.email), OrNull(u.phone), OrNull(u.firstName), OrNull(u.lastName),
      u.dateOfBirth, OrNull(u.address),
      Some(OrFalse(u.emailVerified)), Some(OrFalse(u.phoneVerified)),
      Some(true),
      OrNull(u.avatarUrl), Some(RoleOrReader(u.role)),
      Some(if u.createdAt.Some? then u.createdAt.value else now))
  }

  /**
   * `convertToUser`: the provider id becomes the document id; `email` and the
   * verified flags are copied as they are, the other optional fields fall
   * back to `null`, the role to the reader role, and `isActive` is always
   * true. Destructuring a user without metadata throws.
   */
  function ConvertToUser(p: ProviderUser): (r: Result<UserDoc, string>)
    ensures r.Err? <==> p.user_metadata.None?
    ensures r.Ok? ==> r.value.id == p.id && r.value.isActive
    ensures r.Ok? ==> r.value.email == p.user_metadata.value.email
    ensures r.Ok? ==> r.value.emailVerified == p.user_metadata.value.email_verified
    ensures r.Ok? ==> r.value.role == RoleOrReader(p.user_metadata.value.role)
    ensures r.Ok? ==> r.value.phone == OrNull(p.user_metadata.value.phone)
    ensures r.Ok? ==> r.value.firstName == OrNull(p.user_metadata.value.first_name)
    ensures r.Ok? ==> r.value.lastName == OrNull(p.user_metadata.value.last_name)
    ensures r.Ok? ==> r.value.dateOfBirth == p.user_metadata.value.date_of_birth
    ensures r.Ok? ==> r.value.address == OrNull(p.user_metadata.value.address)
    ensures r.Ok? ==> r.value.phoneVerified == p.user_metadata.value.phone_verified
    ensures r.Ok? ==> r.value.avatarUrl == OrNull(p.user_metadata.value.avatar_url)
  {
    match p.user_metadata
    case None => Err("cannot read properties of undefined")
    case Some(m) =>
      Ok(UserDoc(p.id, m.email, OrNull(m.phone), OrNull(m.first_name), OrNull(m.last_name),
                 m.date_of_birth, OrNull(m.address), m.email_verified, m.phone_verified,
                 true, OrNull(m.avatar_url), RoleOrReader(m.role)))
  }

  /**
   * The round trip through the provider keeps every truthy string field and
   * the date of birth, turns falsy strings into `null`, absent flags into
   * `false`, an absent role into the reader role, and forces `isActive`.
   */
  lemma RoundTrip(u: AppUser, id: string, now: int)
    ensures var r := ConvertToUser(ProviderUser(id, Some(ConvertToSupabaseUser(u, now))));
      && r.Ok?
      && r.value.id == id
      && r.value.email == OrNull(u.email) && r.value.phone == OrNull(u.phone)
      && r.value.firstName == OrNull(u.firstName) && r.value.lastName == OrNull(u.lastName)
      && r.value.address == OrNull(u.address) && r.value.avatarUrl == OrNull(u.avatarUrl)
      && r.value.dateOfBirth == u.dateOfBirth
      && r.value.emailVerified == Some(u.emailVerified == Some(true))
      && r.value.phoneVerified == Some(u.phoneVerified == Some(true))
      && r.value.isActive
      && r.value.role == RoleOrReader(u.role)
  {
  }

  /** For a user whose string fields are all truthy the round trip returns them unchanged. */
  lemma RoundTripKeepsTruthyFields(u: AppUser, id: string, now: int)
    requires Truthy(u.email) && Truthy(u.phone) && Truthy(u.firstName) && Truthy(u.lastName)
    requires Truthy(u.address) && Truthy(u.avatarUrl) && Truthy(u.role)
    ensures var r := ConvertToUser(ProviderUser(id, Some(ConvertToSupabaseUser(u, now))));
      && r.Ok?
      && r.value.email == u.email && r.value.phone == u.phone
      && r.value.firstName == u.firstName && r.value.lastName == u.lastName
      && r.value.address == u.address && r.value.avatarUrl == u.avatarUrl
      && r.value.role == u.role.value
  {
    RoundTrip(u, id, now);
  }

  /** A deactivated user comes back active: the `|| true` fallback cannot be false. */
  lemma DeactivationIsLost(u: AppUser, id: string, now: int)
    requires u.isActive == Some(false)
    ensures ConvertToSupabaseUser(u, now).is_active == Some(true)
    ensures ConvertToUser(ProviderUser(id, Some(ConvertToSupabaseUser(u, now)))).value.isActive
  {
  }
}
