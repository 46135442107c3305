/**
 * The user document of `server/src/models/user.model.ts` and the two ways
 * the handlers expose it: `toObject()` with `password` and `refreshToken`
 * deleted, and a query with `.select("-password -refreshToken")`. Both give
 * the same projection, `Sanitize`.
 */
module Users {
  import opened Wrappers
  import opened Js
  import Collections

  type UserId = nat

  /** A postal address whose parts are each optional (`businessAddress` has the same shape). */
  datatype Address = Address(street: Field, city: Field, state: Field, zipCode: Field, country: Field)

  const NoAddress := Address(None, None, None, None, None)

  /**
   * The role string. The schema's enum lists only 'user' and 'admin', but
   * updates by `findByIdAndUpdate` run no validators, so 'seller' is stored too.
   */
  datatype Role = Shopper | Admin | Seller

  function RoleName(r: Role): string {
    match r
    case Shopper => "user"
    case Admin => "admin"
    case Seller => "seller"
  }

  /**
   * A profile picture sent with a request: no file, a file `uploadOnCloudinary`
   * stored (with its `secure_url`), or a file whose upload returned null.
   */
  datatype Upload = NoFile | Uploaded(secureUrl: string) | UploadFailed

  /** `password` holds the bcrypt hash once saved; `refreshToken` the last issued refresh token. */
  datatype User = User(name: string, email: string, password: Field, contactNumber: Field,
                       address: Address, profilePicture: Field, refreshToken: Field,
                       role: Role, isVerified: bool)

  /** The top-level paths of a user document. */
  datatype Key = NameKey | EmailKey | PasswordKey | ContactNumberKey | AddressKey
               | ProfilePictureKey | RefreshTokenKey | RoleKey | IsVerifiedKey

  function KeyName(k: Key): string {
    match k
    case NameKey => "name"
    case EmailKey => "email"
    case PasswordKey => "password"
    case ContactNumberKey => "contactNumber"
    case AddressKey => "address"
    case ProfilePictureKey => "profilePicture"
    case RefreshTokenKey => "refreshToken"
    case RoleKey => "role"
    case IsVerifiedKey => "isVerified"
  }

  /** A field of a plain document, as `toObject()` produces it. */
  datatype Value = Text(text: string) | Flag(flag: bool) | Nested(parts: Address)

  type Document = map<Key, Value>

  /** The keys the handlers strip before a user leaves the server. */
  const Secrets: set<Key> := {PasswordKey, RefreshTokenKey}

  function PresentText(key: Key, f: Field): Document {
    if f.Some? then map[key := Text(f.value)] else map[]
  }

  /** The paths of a user other than the secret ones. */
  function PublicFields(u: User): (d: Document)
    ensures forall k :: k in Secrets ==> k !in d
  {
    map[NameKey := Text(u.name), EmailKey := Text(u.email), RoleKey := Text(RoleName(u.role)),
        IsVerifiedKey := Flag(u.isVerified), AddressKey := Nested(u.address)]
      + PresentText(ContactNumberKey, u.contactNumber) + PresentText(ProfilePictureKey, u.profilePicture)
  }

  /** `user.toObject()`: every path that holds a value. */
  function ToObject(u: User): (d: Document)
    ensures PasswordKey in d <==> u.password.Some?
    ensures RefreshTokenKey in d <==> u.refreshToken.Some?
    ensures NameKey in d && d[NameKey] == Text(u.name)
    ensures EmailKey in d && d[EmailKey] == Text(u.email)
  {
    PublicFields(u) + SecretFields(u)
  }

  function SecretFields(u: User): (d: Document)
    ensures forall k :: k in d ==> k in Secrets
  {
    PresentText(PasswordKey, u.password) + PresentText(RefreshTokenKey, u.refreshToken)
  }

  /** The user as it may leave the server: `toObject()` without the secret keys. */
  function Sanitize(u: User): (d: Document)
    ensures forall k :: k in Secrets ==> k !in d
    ensures forall k :: k in ToObject(u) && k !in Secrets ==> k in d && d[k] == ToObject(u)[k]
    ensures forall k :: k in d ==> k in ToObject(u)
  {
    ToObject(u) - Secrets
  }

  /** What leaves the server does not depend on the password hash or the refresh token. */
  lemma SanitizeIgnoresSecrets(u: User, password: Field, refreshToken: Field)
    ensures Sanitize(u.(password := password, refreshToken := refreshToken)) == Sanitize(u)
  {
    var v := u.(password := password, refreshToken := refreshToken);
    assert PublicFields(v) == PublicFields(u);
    StripSecrets(PublicFields(u), SecretFields(u));
    StripSecrets(PublicFields(v), SecretFields(v));
  }

  lemma StripSecrets(p: Document, x: Document)
    requires forall k :: k in p ==> k !in Secrets
    requires forall k :: k in x ==> k in Secrets
    ensures (p + x) - Secrets == p
  {
    var q := (p + x) - Secrets;
    assert forall k :: k in q <==> k in p;
    assert forall k :: k in q ==> q[k] == p[k];
  }

  /** `User.findOne({ email })`. */
  function FindByEmail(users: seq<User>, email: string): (r: Option<UserId>)
    ensures r.Some? ==> r.value < |users| && users[r.value].email == email
    ensures r.Some? ==> forall k :: 0 <= k < r.value ==> users[k].email != email
    ensures r.None? <==> forall k :: 0 <= k < |users| ==> users[k].email != email
  {
    Collections.FirstWhere(users, (u: User) => u.email == email)
  }

  /** A user appended under an email no one holds is the one that email finds. */
  lemma FindAppended(users: seq<User>, u: User)
    requires FindByEmail(users, u.email).None?
    ensures FindByEmail(users + [u], u.email) == Some(|users|)
  {
    var all := users + [u];
    assert forall k :: 0 <= k < |users| ==> all[k] == users[k];
    assert all[|users|] == u;
  }

  /** `User.findByIdAndUpdate(id, ...)` and `updateOne({ _id })`: a missing id changes nothing. */
  function UpdateUser(users: seq<User>, id: UserId, f: User -> User): (r: seq<User>)
    ensures |r| == |users|
    ensures id < |users| ==> r[id] == f(users[id])
    ensures forall k :: 0 <= k < |users| && k != id ==> r[k] == users[k]
  {
    if id < |users| then users[id := f(users[id])] else users
  }
}
