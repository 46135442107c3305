/**
 * The profile handlers of `server/src/controllers/user.controller.ts`, both
 * behind the access-token middleware: `fetchUser` returns the user the
 * middleware attached, and `updateProfile` writes a whitelist of fields and
 * swaps the profile picture.
 */
module UserProfile {
  import opened Wrappers
  import opened Js
  import opened Users
  import opened Http
  import Cloudinary

  /** `GET /user/me`: the sanitized user on the request, or 404 when the request carries none. */
  function FetchUser(current: Option<Document>): (out: (Reply, Option<Document>))
    ensures out.0.status in {200, 404}
    ensures out.0.status == 404 <==> current.None?
    ensures out.1 == current
  {
    match current
    case None => (Reply(404, "User context not found"), None)
    case Some(u) => (Reply(200, ""), Some(u))
  }

  /** The body fields `updateProfile` reads; any other field of the request is ignored. */
  datatype ProfileForm = ProfileForm(name: Field, contactNumber: Field, street: Field, city: Field,
                                     state: Field, zipCode: Field, country: Field)

  predicate AnyField(f: ProfileForm) {
    Truthy(f.name) || Truthy(f.contactNumber) || Truthy(f.street) || Truthy(f.city)
    || Truthy(f.state) || Truthy(f.zipCode) || Truthy(f.country)
  }

  /**
   * The user after `$set` of the collected update. Address parts are set
   * through their dotted paths, so parts the request leaves out stay.
   */
  function Patched(u: User, f: ProfileForm, picture: Option<string>): (r: User)
    ensures r.email == u.email && r.role == u.role && r.password == u.password
    ensures r.refreshToken == u.refreshToken && r.isVerified == u.isVerified
  {
    u.(name := SetIfTruthy(u.name, f.name),
       contactNumber := Merge(u.contactNumber, f.contactNumber),
       address := Address(Merge(u.address.street, f.street), Merge(u.address.city, f.city),
                          Merge(u.address.state, f.state), Merge(u.address.zipCode, f.zipCode),
                          Merge(u.address.country, f.country)),
       profilePicture := if picture.Some? then picture else u.profilePicture)
  }

  /**
   * What the handler replies, the public id of the old picture it destroyed
   * (if any), and the user collection afterwards.
   */
  datatype ProfileAnswer = ProfileAnswer(reply: Reply, user: Option<Document>, destroyed: Option<string>, users: seq<User>)

  /**
   * `PATCH /user/update` for the user `caller`, whose document as the
   * middleware read it is `current`. The old picture is destroyed right after
   * a successful upload, before the store is written, and only when the
   * current user has one whose URL yields a public id.
   */
  function UpdateProfile(users: seq<User>, caller: UserId, current: User, form: ProfileForm, upload: Upload): (a: ProfileAnswer)
    ensures a.reply.status in {200, 400, 404}
    ensures a.reply.status == 400 <==> !AnyField(form) && !upload.Uploaded?
    ensures a.reply.status == 404 <==> (AnyField(form) || upload.Uploaded?) && caller >= |users|
    ensures a.reply.status != 200 ==> a.users == users
    ensures a.destroyed.Some? <==>
      upload.Uploaded? && Truthy(current.profilePicture) && Cloudinary.ExtractPublicId(current.profilePicture.value).Some?
    ensures a.destroyed.Some? ==> a.destroyed == Cloudinary.ExtractPublicId(current.profilePicture.value)
    ensures |a.users| == |users|
    ensures forall k :: 0 <= k < |users| && k != caller ==> a.users[k] == users[k]
    ensures a.reply.status == 200 ==>
      a.users[caller] == Patched(users[caller], form, if upload.Uploaded? then Some(upload.secureUrl) else None)
      && a.user == Some(Sanitize(a.users[caller]))
  {
    if !AnyField(form) && upload.NoFile? then
      ProfileAnswer(Reply(400, "No valid fields provided for update"), None, None, users)
    else
      var picture := if upload.Uploaded? then Some(upload.secureUrl) else None;
      var destroyed := if upload.Uploaded? && Truthy(current.profilePicture)
                       then Cloudinary.ExtractPublicId(current.profilePicture.value) else None;
      if !AnyField(form) && picture.None? then
        ProfileAnswer(Reply(400, "No valid fields provided for update"), None, destroyed, users)
      else if caller >= |users| then
        ProfileAnswer(Reply(404, "User not found"), None, destroyed, users)
      else
        var updated := Patched(users[caller], form, picture);
        ProfileAnswer(Reply(200, "Profile updated successfully"), Some(Sanitize(updated)), destroyed,
                      users[caller := updated])
  }

  /** Address parts the request leaves out keep their stored values. */
  lemma UntouchedAddressPartsStay(users: seq<User>, caller: UserId, current: User, form: ProfileForm, upload: Upload)
    requires UpdateProfile(users, caller, current, form, upload).reply.status == 200
    ensures var after := UpdateProfile(users, caller, current, form, upload).users[caller].address;
      var before := users[caller].address;
      Overwrites(before.street, after.street, form.street) && Overwrites(before.city, after.city, form.city)
      && Overwrites(before.state, after.state, form.state) && Overwrites(before.zipCode, after.zipCode, form.zipCode)
      && Overwrites(before.country, after.country, form.country)
  {
  }

  /** A failed upload changes nothing about the picture: the stored one stays and none is destroyed. */
  lemma FailedUploadKeepsPicture(users: seq<User>, caller: UserId, current: User, form: ProfileForm)
    requires UpdateProfile(users, caller, current, form, UploadFailed).reply.status == 200
    ensures var a := UpdateProfile(users, caller, current, form, UploadFailed);
      a.users[caller].profilePicture == users[caller].profilePicture && a.destroyed.None?
  {
  }

  /** A failed upload with no field leaves nothing to write: 400, and nothing else happens. */
  lemma FailedUploadAloneIsRejected(users: seq<User>, caller: UserId, current: User, form: ProfileForm)
    requires !AnyField(form)
    ensures var a := UpdateProfile(users, caller, current, form, UploadFailed);
      a.reply.status == 400 && a.users == users && a.destroyed.None?
  {
  }

  /** Re-sending the same update changes nothing further. */
  lemma UpdateProfileIdempotent(users: seq<User>, caller: UserId, current: User, form: ProfileForm, upload: Upload)
    requires UpdateProfile(users, caller, current, form, upload).reply.status == 200
    ensures var once := UpdateProfile(users, caller, current, form, upload).users;
      UpdateProfile(once, caller, current, form, upload).users == once
  {
    var once := UpdateProfile(users, caller, current, form, upload).users;
    var picture := if upload.Uploaded? then Some(upload.secureUrl) else None;
    assert Patched(once[caller], form, picture) == once[caller];
    assert once[caller := once[caller]] == once;
  }

  /**
   * Only the whitelist is written: email, role, password and verification
   * stay, the picture changes only with a successful upload, and the name
   * only when one is submitted.
   */
  lemma OnlyWhitelistWritten(users: seq<User>, caller: UserId, current: User, form: ProfileForm, upload: Upload)
    requires UpdateProfile(users, caller, current, form, upload).reply.status == 200
    ensures var u := UpdateProfile(users, caller, current, form, upload).users[caller];
      u.email == users[caller].email && u.role == users[caller].role
      && u.password == users[caller].password && u.isVerified == users[caller].isVerified
      && (!upload.Uploaded? ==> u.profilePicture == users[caller].profilePicture)
      && (Truthy(form.name) ==> u.name == form.name.value) && (!Truthy(form.name) ==> u.name == users[caller].name)
  {
  }

  /** The old picture goes before the store is written, so it is destroyed even when the user is then not found. */
  lemma PictureDestroyedEvenWhenUserMissing(current: User, url: string)
    requires current.profilePicture == Some("/upload/a.png")
    ensures var a := UpdateProfile([], 0, current, ProfileForm(None, None, None, None, None, None, None), Uploaded(url));
      a.reply.status == 404 && a.destroyed == Some("a")
  {
    var s := "/upload/a.png";
    assert Cloudinary.MatchesAt(s, 0) by {
      assert s[0..8] == Cloudinary.UploadMarker;
    }
    assert Cloudinary.FirstMatch(s, 0) == Some(0);
    assert Cloudinary.VersionEnd(s, 8).None?;
    assert Cloudinary.RunEnd(s, 8) == 9;
    assert s[8..9] == "a";
  }
}
