/**
  The HTTP handlers under `src/routes` as methods of one `Database` object that holds
  the `cucura-ccdb` collections. Each method does what its handler does to the collections
  and returns what the handler answers: a status and a JSON string, or a JSON body with 200.

  Request extraction (`web::Json`, `web::Path`, `web::Query`) happens before a handler runs,
  so the methods take the extracted values. Fresh identifiers, clock readings and the
  `_id` the driver assigns are parameters too.
*/
module Routes {
  import opened Wrappers
  import opened Clock
  import opened Ids
  import opened Bcrypt
  import opened UserModel
  import opened ProfileModel
  import opened BusinessModel
  import opened NotificationModel
  import opened Records
  import opened Documents
  import opened Pagination
  import Driver

  datatype Status = Ok | BadRequest | Unauthorized | NotFound | InternalServerError

  /** What a lookup handler answers: a status with a JSON string, or a JSON body with 200. */
  datatype Reply<T> = Text(status: Status, text: string) | Json(body: T)

  datatype LoginRequest = LoginRequest(username: string, password: string)

  datatype PasswordChangeRequest = PasswordChangeRequest(email: string, old_password: string, new_password: string)

  /**
    How the notifications query goes at the store: it runs, the query itself fails, or the
    cursor yields an error in place of the document at `position`.
  */
  datatype CursorFault = NoFault | QueryFails | FailsAt(position: nat)

  /** The page `find_all_businesses` returns: the skip in wrapping `u32`, then `limit` items, then decoding. */
  function BusinessPage(businesses: seq<Stored<Business>>, q: PaginationParams): seq<Business> {
    Decoded(Page(businesses, SkipAsWritten(q) as nat, LimitOf(q) as nat))
  }

  /** The page `find_all_businesses` is meant to return: page 0 read as page 1, no wrap-around. */
  function IntendedPage(businesses: seq<Stored<Business>>, q: PaginationParams): seq<Business> {
    Decoded(Page(businesses, ClampedSkip(q), LimitOf(q) as nat))
  }

  /** Every item of a page deserialises from a stored document. */
  lemma PageMembers(businesses: seq<Stored<Business>>, skip: nat, take: nat)
    ensures forall b :: b in Decoded(Page(businesses, skip, take)) ==> Decodes(b) in businesses
  {
    var page := Page(businesses, skip, take);
    forall b | b in Decoded(page) ensures Decodes(b) in businesses {
      DecodedMembers(page, b);
      var j :| 0 <= j < |page| && page[j] == Decodes(b);
      assert page[j] == businesses[skip + j];
    }
  }

  /** A page holds at most `limit` businesses, each one stored. */
  lemma BusinessPageBounded(businesses: seq<Stored<Business>>, q: PaginationParams)
    ensures |BusinessPage(businesses, q)| <= LimitOf(q) as int
    ensures forall b :: b in BusinessPage(businesses, q) ==> Decodes(b) in businesses
  {
    PageMembers(businesses, SkipAsWritten(q) as nat, LimitOf(q) as nat);
  }

  /** From page 1 on, and while the offset fits in `u32`, the handler returns the intended page. */
  lemma BusinessPageIntended(businesses: seq<Stored<Business>>, q: PaginationParams)
    requires PageOf(q) >= 1 && ClampedSkip(q) < U32Modulus
    ensures BusinessPage(businesses, q) == IntendedPage(businesses, q)
  {
    SkipIsOffset(q);
  }

  /** When every document deserialises and the page lies within the collection, it is full. */
  lemma BusinessPageFull(businesses: seq<Stored<Business>>, q: PaginationParams)
    requires AllDecode(businesses)
    requires PageOf(q) >= 1 && ClampedSkip(q) < U32Modulus && ClampedSkip(q) + LimitOf(q) as int <= |businesses|
    ensures |BusinessPage(businesses, q)| == LimitOf(q) as int
  {
    SkipIsOffset(q);
    var page := Page(businesses, SkipAsWritten(q) as nat, LimitOf(q) as nat);
    assert AllDecode(page) by {
      forall j | 0 <= j < |page| ensures page[j].Decodes? {
        assert page[j] == businesses[SkipAsWritten(q) as nat + j];
      }
    }
    DecodedAll(page);
  }

  /** Page 0 is not page 1: the wrapped skip runs past any collection of fewer than 2^32 - limit documents. */
  lemma BusinessPageZeroEmpty(businesses: seq<Stored<Business>>, limit: u32)
    requires 0 < limit && |businesses| + limit as int <= U32Modulus
    ensures BusinessPage(businesses, PaginationParams(Some(0), Some(limit))) == []
  {
    PageZeroWraps(limit);
  }

  /** The intended page 0 is page 1, and with at least `limit` readable documents it is full. */
  lemma IntendedPageZeroIsFirst(businesses: seq<Stored<Business>>, limit: u32)
    ensures IntendedPage(businesses, PaginationParams(Some(0), Some(limit))) ==
            IntendedPage(businesses, PaginationParams(Some(1), Some(limit)))
    ensures AllDecode(businesses) && limit as int <= |businesses| ==>
            |IntendedPage(businesses, PaginationParams(Some(0), Some(limit)))| == limit as int
  {
    var q := PaginationParams(Some(0), Some(limit));
    if AllDecode(businesses) && limit as int <= |businesses| {
      var page := Page(businesses, 0, limit as nat);
      assert AllDecode(page) by {
        forall j | 0 <= j < |page| ensures page[j].Decodes? {
          assert page[j] == businesses[j];
        }
      }
      DecodedAll(page);
    }
  }

  class Database {
    /** How the serialiser writes Uuid fields into every collection. */
    const encoding: UuidEncoding
    /** The `bcrypt::hash` / `bcrypt::verify` pair at `DEFAULT_COST`. */
    const bcrypt: Hasher

    var users: seq<User>
    var profiles: seq<Profile>
    var businesses: seq<Stored<Business>>
    var payments: seq<Payment>
    var notifications: seq<NotificationDoc>
    var messages: seq<MessageDoc>

    /** What the store itself guarantees about the collections. */
    predicate Valid()
      reads this`payments, this`notifications
    {
      PaymentIdsUnique(payments) && NotificationKeysAgree(notifications, encoding)
    }

    constructor Connect(encoding: UuidEncoding, bcrypt: Hasher, users: seq<User>, profiles: seq<Profile>,
                        businesses: seq<Stored<Business>>, payments: seq<Payment>,
                        notifications: seq<NotificationDoc>, messages: seq<MessageDoc>)
      requires PaymentIdsUnique(payments) && NotificationKeysAgree(notifications, encoding)
      ensures Valid()
      ensures this.encoding == encoding && this.bcrypt == bcrypt
      ensures this.users == users && this.profiles == profiles && this.businesses == businesses
      ensures this.payments == payments && this.notifications == notifications && this.messages == messages
    {
      this.encoding := encoding;
      this.bcrypt := bcrypt;
      this.users := users;
      this.profiles := profiles;
      this.businesses := businesses;
      this.payments := payments;
      this.notifications := notifications;
      this.messages := messages;
    }

    // ----- user_routes.rs -----

    /**
      `register_user`: the password is hashed first; a taken username is answered with an
      error string under 200 and changes nothing; otherwise the user and a bare profile seeded
      from it are appended. Only the username is checked, never the profile emails.
    */
    method RegisterUser(req: NewUser, userId: Uuid, profileId: Uuid, now: Instant) returns (status: Status, text: string)
      modifies this`users, this`profiles
      ensures status == Ok
      ensures Driver.Exists(old(users), UsernameIs(req.username)) ==>
        text == "Error: User already exists" && users == old(users) && profiles == old(profiles)
      ensures !Driver.Exists(old(users), UsernameIs(req.username)) ==>
        && text == "User registered successfully"
        && users == old(users) + [ToUser(req.(password := bcrypt.hash(req.password)), userId, now)]
        && profiles == old(profiles) + [ProfileModel.New(profileId, now, userId, req.email, req.username)]
      ensures UniqueUsernames(old(users)) ==> UniqueUsernames(users)
    {
      var hashed := bcrypt.hash(req.password);
      var newUser := req.(password := hashed);
      var existing := Driver.FindOne(users, UsernameIs(newUser.username));
      if existing.Some? {
        return Ok, "Error: User already exists";
      }
      var created := ToUser(newUser, userId, now);
      users := users + [created];
      var profile := ProfileModel.New(profileId, now, created.user_id, created.email, created.username);
      profiles := profiles + [profile];
      return Ok, "User registered successfully";
    }

    /**
      `update_user`: re-hashes the given password and sets username, email, password and
      user_type on the first user whose `user_id` equals the id's text form. Success is
      reported whether or not a user matched.
    */
    method UpdateUser(user: User) returns (status: Status, text: string)
      modifies this`users
      ensures status == Ok && text == "User updated successfully"
      ensures users == Driver.UpdateOne(old(users), UserIdIs(TextKey(Format(user.user_id)), encoding),
                                        UserUpdate(user, bcrypt.hash(user.password)))
      ensures |users| == |old(users)|
      ensures forall j :: 0 <= j < |users| ==>
        && users[j].user_id == old(users)[j].user_id
        && users[j].created_at == old(users)[j].created_at
        && users[j].updated_at == old(users)[j].updated_at
      ensures encoding == AsText ==> forall j :: 0 <= j < |users| && users[j] != old(users)[j] ==>
        old(users)[j].user_id == user.user_id &&
        users[j] == old(users)[j].(username := user.username, email := user.email,
                                   password := bcrypt.hash(user.password), user_type := user.user_type)
      ensures encoding.AsBinary? ==> users == old(users)
    {
      var hashed := bcrypt.hash(user.password);
      var filter := UserIdIs(TextKey(Format(user.user_id)), encoding);
      ghost var before := users;
      users := Driver.UpdateOne(users, filter, UserUpdate(user, hashed));
      if encoding == AsText {
        forall j | 0 <= j < |users| && users[j] != before[j]
          ensures before[j].user_id == user.user_id
        {
          FormattedKeyMatches(before[j].user_id, user.user_id);
        }
      }
      return Ok, "User updated successfully";
    }

    /**
      `delete_user`: removes the first user whose `user_id` equals the id's text form, and
      reports success whether or not one matched.
    */
    method DeleteUser(id: Uuid) returns (status: Status, text: string)
      modifies this`users
      ensures status == Ok && text == "User deleted successfully"
      ensures users == Driver.DeleteOne(old(users), UserIdIs(TextKey(Format(id)), encoding))
      ensures multiset(users) <= multiset(old(users))
      ensures encoding == AsText ==>
        |users| == if exists j :: 0 <= j < |old(users)| && old(users)[j].user_id == id then |old(users)| - 1 else |old(users)|
      ensures encoding.AsBinary? ==> users == old(users)
    {
      var filter := UserIdIs(TextKey(Format(id)), encoding);
      Driver.DeleteOneCount(users, filter);
      if encoding == AsText {
        FormattedUserIdIs(users, id);
      }
      users := Driver.DeleteOne(users, filter);
      return Ok, "User deleted successfully";
    }

    /** `find_user`: the first user with that username, or 404. */
    method FindUser(username: string) returns (r: Reply<User>)
      ensures r.Json? <==> exists j :: 0 <= j < |users| && users[j].username == username
      ensures r.Json? ==> r.body.username == username && r.body in users
      ensures r.Text? ==> r == Text(NotFound, "User not found")
    {
      match Driver.FindOne(users, UsernameIs(username))
      case Some(user) => return Json(user);
      case None => return Text(NotFound, "User not found");
    }

    // ----- auth_routes.rs -----

    /**
      `login_user`: succeeds exactly when the first user with that username exists and the
      password verifies against its stored hash; an unknown user and a wrong password get
      the same 401 answer. Nothing is written.
    */
    method LoginUser(req: LoginRequest) returns (status: Status, text: string)
      ensures var found := Driver.FindOne(users, UsernameIs(req.username));
        status == Ok <==> found.Some? && bcrypt.verify(req.password, found.value.password)
      ensures status == Ok ==> text == "Login successful"
      ensures status != Ok ==> status == Unauthorized && text == "Invalid username or password"
    {
      match Driver.FindOne(users, UsernameIs(req.username))
      case Some(user) =>
        if bcrypt.verify(req.password, user.password) {
          return Ok, "Login successful";
        } else {
          return Unauthorized, "Invalid username or password";
        }
      case None =>
        return Unauthorized, "Invalid username or password";
    }

    /**
      `set_password`: stores `hash(password)` on the first user with that email, without
      asking for the old password, and reports success whether or not one matched.
    */
    method SetPassword(user: User) returns (status: Status, text: string)
      modifies this`users
      ensures status == Ok && text == "Password set successfully"
      ensures users == Driver.UpdateOne(old(users), EmailIs(user.email), PasswordUpdate(bcrypt.hash(user.password)))
      ensures |users| == |old(users)|
      ensures forall j :: 0 <= j < |users| ==> users[j].(password := old(users)[j].password) == old(users)[j]
      ensures Driver.FindOne(users, EmailIs(user.email)) ==
        match Driver.FindOne(old(users), EmailIs(user.email))
        case None => None
        case Some(u) => Some(u.(password := bcrypt.hash(user.password)))
    {
      var hashed := bcrypt.hash(user.password);
      PasswordUpdateKeepsEmail(users, user.email, hashed);
      users := Driver.UpdateOne(users, EmailIs(user.email), PasswordUpdate(hashed));
      return Ok, "Password set successfully";
    }

    /**
      `change_password`: an unknown email and a wrong old password are both 401 and change
      nothing; otherwise only the password of the first user with that email becomes
      `hash(new_password)`, which then verifies when bcrypt is sound.
    */
    method ChangePassword(req: PasswordChangeRequest) returns (status: Status, text: string)
      modifies this`users
      ensures var found := Driver.FindOne(old(users), EmailIs(req.email));
        && (found.None? ==> status == Unauthorized && text == "Invalid username" && users == old(users))
        && (found.Some? && !bcrypt.verify(req.old_password, found.value.password) ==>
              status == Unauthorized && text == "Invalid old password" && users == old(users))
        && (found.Some? && bcrypt.verify(req.old_password, found.value.password) ==>
              && status == Ok && text == "Password changed successfully"
              && users == Driver.UpdateOne(old(users), EmailIs(req.email), PasswordUpdate(bcrypt.hash(req.new_password)))
              && Driver.FindOne(users, EmailIs(req.email)) == Some(found.value.(password := bcrypt.hash(req.new_password))))
      ensures status == Ok && Sound(bcrypt) ==>
        bcrypt.verify(req.new_password, Driver.FindOne(users, EmailIs(req.email)).value.password)
    {
      match Driver.FindOne(users, EmailIs(req.email))
      case Some(user) =>
        if bcrypt.verify(req.old_password, user.password) {
          var hashed := bcrypt.hash(req.new_password);
          PasswordUpdateKeepsEmail(users, req.email, hashed);
          users := Driver.UpdateOne(users, EmailIs(req.email), PasswordUpdate(hashed));
          return Ok, "Password changed successfully";
        } else {
          return Unauthorized, "Invalid old password";
        }
      case None =>
        return Unauthorized, "Invalid username";
    }

    // ----- profile_routes.rs -----

    /** `register_profile`: a taken email is an error string under 200; otherwise the profile is appended as given. */
    method RegisterProfile(profile: Profile) returns (status: Status, text: string)
      modifies this`profiles
      ensures status == Ok
      ensures Driver.Exists(old(profiles), ProfileEmailIs(profile.email)) ==>
        text == "Error 10001 : Profile already exists" && profiles == old(profiles)
      ensures !Driver.Exists(old(profiles), ProfileEmailIs(profile.email)) ==>
        text == "profile registered successfully" && profiles == old(profiles) + [profile]
      ensures UniqueProfileEmails(old(profiles)) ==> UniqueProfileEmails(profiles)
    {
      var existing := Driver.FindOne(profiles, ProfileEmailIs(profile.email));
      if existing.Some? {
        return Ok, "Error 10001 : Profile already exists";
      }
      profiles := profiles + [profile];
      return Ok, "profile registered successfully";
    }

    /**
      `update_profile`: matches by username and sets the username (to itself) and the bio,
      so at most one profile changes and only in its bio. Success either way.
    */
    method UpdateProfile(profile: Profile) returns (status: Status, text: string)
      modifies this`profiles
      ensures status == Ok && text == "profile updated successfully"
      ensures profiles == Driver.UpdateOne(old(profiles), ProfileUsernameIs(profile.username), ProfileUpdate(profile))
      ensures |profiles| == |old(profiles)|
      ensures forall j :: 0 <= j < |profiles| ==> profiles[j].(bio := old(profiles)[j].bio) == old(profiles)[j]
      ensures forall j :: 0 <= j < |profiles| && profiles[j] != old(profiles)[j] ==>
        old(profiles)[j].username == profile.username && profiles[j].bio == profile.bio
      ensures !Driver.Exists(old(profiles), ProfileUsernameIs(profile.username)) ==> profiles == old(profiles)
    {
      profiles := Driver.UpdateOne(profiles, ProfileUsernameIs(profile.username), ProfileUpdate(profile));
      return Ok, "profile updated successfully";
    }

    /** `delete_profile`: removes the first profile with that username, if any; success either way. */
    method DeleteProfile(username: string) returns (status: Status, text: string)
      modifies this`profiles
      ensures status == Ok && text == "Profile deleted successfully"
      ensures profiles == Driver.DeleteOne(old(profiles), ProfileUsernameIs(username))
      ensures |profiles| == if Driver.Exists(old(profiles), ProfileUsernameIs(username)) then |old(profiles)| - 1 else |old(profiles)|
      ensures multiset(profiles) <= multiset(old(profiles))
    {
      Driver.DeleteOneCount(profiles, ProfileUsernameIs(username));
      profiles := Driver.DeleteOne(profiles, ProfileUsernameIs(username));
      return Ok, "Profile deleted successfully";
    }

    /**
      `find_profile`: a path that is not a Uuid is 400 (with the business handler's text);
      otherwise the profile is looked up by the binary form of the id, which only a store
      writing Uuids as binary subtype 0 can match.
    */
    method FindProfile(path: string) returns (r: Reply<Profile>)
      ensures r == Text(BadRequest, "Invalid business ID format") <==> !WellFormed(path)
      ensures r.Json? ==> r.body in profiles && Parse(path).Some? && Encode(r.body.profile_id, encoding) == BinaryQuery(Parse(path).value)
      ensures WellFormed(path) && r.Text? ==> r == Text(NotFound, "Profile not found")
      ensures Parse(path).Some? && encoding == AsBinary(UserDefinedZero) ==>
        (r.Json? <==> exists j :: 0 <= j < |profiles| && profiles[j].profile_id == Parse(path).value)
      ensures encoding != AsBinary(UserDefinedZero) ==> r.Text?
    {
      ParseAccepts(path);
      match Parse(path)
      case None => return Text(BadRequest, "Invalid business ID format");
      case Some(id) =>
        match Driver.FindOne(profiles, ProfileIdIs(BinaryQuery(id), encoding))
        case Some(profile) => return Json(profile);
        case None => return Text(NotFound, "Profile not found");
    }

    /** `find_profile_by_username`: the first profile with that username, or 404. */
    method FindProfileByUsername(username: string) returns (r: Reply<Profile>)
      ensures r.Json? <==> exists j :: 0 <= j < |profiles| && profiles[j].username == username
      ensures r.Json? ==> r.body.username == username && r.body in profiles
      ensures r.Text? ==> r == Text(NotFound, "Profile not found")
    {
      match Driver.FindOne(profiles, ProfileUsernameIs(username))
      case Some(profile) => return Json(profile);
      case None => return Text(NotFound, "Profile not found");
    }

    // ----- business_routes.rs -----

    /** `register_business`: a taken name is an error string under 200; otherwise the business is appended. */
    method RegisterBusiness(business: Business) returns (status: Status, text: string)
      modifies this`businesses
      ensures status == Ok
      ensures Driver.Exists(old(businesses), BusinessNameIs(business.name)) ==>
        text == "Error 10001 : Business already exists" && businesses == old(businesses)
      ensures !Driver.Exists(old(businesses), BusinessNameIs(business.name)) ==>
        text == "business registered successfully" && businesses == old(businesses) + [Decodes(business)]
      ensures UniqueBusinessNames(old(businesses)) ==> UniqueBusinessNames(businesses)
    {
      var existing := Driver.FindOne(businesses, BusinessNameIs(business.name));
      if existing.Some? {
        return Ok, "Error 10001 : Business already exists";
      }
      businesses := businesses + [Decodes(business)];
      return Ok, "business registered successfully";
    }

    /** `find_business`: 400 on a path that is not a Uuid, else a lookup by the binary id, 404 when absent. */
    method FindBusiness(path: string) returns (r: Reply<Business>)
      ensures r == Text(BadRequest, "Invalid business ID format") <==> !WellFormed(path)
      ensures r.Json? ==>
        Decodes(r.body) in businesses && Parse(path).Some? && Encode(r.body.business_id, encoding) == BinaryQuery(Parse(path).value)
      ensures WellFormed(path) && r.Text? ==> r == Text(NotFound, "Business not found")
      ensures Parse(path).Some? && encoding == AsBinary(UserDefinedZero) ==>
        (r.Json? <==> exists j :: 0 <= j < |businesses| && businesses[j].Decodes? &&
                                  businesses[j].value.business_id == Parse(path).value)
      ensures encoding != AsBinary(UserDefinedZero) ==> r.Text?
    {
      ParseAccepts(path);
      match Parse(path)
      case None => return Text(BadRequest, "Invalid business ID format");
      case Some(id) =>
        match Driver.FindOne(businesses, BusinessIdIs(BinaryQuery(id), encoding))
        case Some(d) => return Json(d.value);
        case None => return Text(NotFound, "Business not found");
    }

    /**
      `update_business`: re-parses the id's own text form (the 400 branch is dead, see
      `Ids.ParseFormat`), answers an error string under 200 when no business has that binary
      id, and otherwise sets the fourteen listed fields on the first match.
    */
    method UpdateBusiness(business: Business) returns (status: Status, text: string)
      modifies this`businesses
      ensures status == BadRequest <==> Parse(Format(business.business_id)).None?
      ensures status == BadRequest ==> text == "Invalid business ID format" && businesses == old(businesses)
      ensures status != BadRequest ==> status == Ok
      ensures var filter := BusinessIdIs(BinaryQuery(business.business_id), encoding);
        status == Ok ==>
          && (!Driver.Exists(old(businesses), filter) ==>
                text == "Error 10001 : Business does not exist" && businesses == old(businesses))
          && (Driver.Exists(old(businesses), filter) ==>
                text == "business updated successfully" &&
                businesses == Driver.UpdateOne(old(businesses), filter, BusinessUpdate(business)))
      ensures |businesses| == |old(businesses)|
      ensures forall j :: 0 <= j < |businesses| ==>
        && businesses[j].Decodes? == old(businesses)[j].Decodes?
        && (businesses[j].Decodes? ==>
              businesses[j].value == old(businesses)[j].value || businesses[j].value == SetBusinessFields(old(businesses)[j].value, business))
      ensures forall j :: 0 <= j < |businesses| && businesses[j] != old(businesses)[j] ==>
        old(businesses)[j].value.business_id == business.business_id && encoding == AsBinary(UserDefinedZero)
    {
      match Parse(Format(business.business_id))
      case None =>
        return BadRequest, "Invalid business ID format";
      case Some(id) =>
        ParseFormat(business.business_id);
        var filter := BusinessIdIs(BinaryQuery(id), encoding);
        var existing := Driver.FindOne(businesses, filter);
        if existing.None? {
          return Ok, "Error 10001 : Business does not exist";
        }
        businesses := Driver.UpdateOne(businesses, filter, BusinessUpdate(business));
        return Ok, "business updated successfully";
    }

    /**
      `delete_business`: the filter compares `business_id` with the path as a string, so it
      removes a business only under text storage; success either way.
    */
    method DeleteBusiness(path: string) returns (status: Status, text: string)
      modifies this`businesses
      ensures status == Ok && text == "business deleted successfully"
      ensures businesses == Driver.DeleteOne(old(businesses), BusinessIdIs(TextKey(path), encoding))
      ensures multiset(businesses) <= multiset(old(businesses))
      ensures |businesses| == if Driver.Exists(old(businesses), BusinessIdIs(TextKey(path), encoding)) then |old(businesses)| - 1 else |old(businesses)|
      ensures encoding.AsBinary? ==> businesses == old(businesses)
    {
      Driver.DeleteOneCount(businesses, BusinessIdIs(TextKey(path), encoding));
      businesses := Driver.DeleteOne(businesses, BusinessIdIs(TextKey(path), encoding));
      return Ok, "business deleted successfully";
    }

    /**
      `find_all_businesses`: skips `(page - 1) * limit` stream items in wrapping `u32`, takes
      `limit`, and keeps those that deserialise. Skipped and taken items include undecodable
      ones, so a page can come back short.
    */
    method FindAllBusinesses(q: PaginationParams) returns (r: seq<Business>)
      ensures r == BusinessPage(businesses, q)
      ensures |r| <= LimitOf(q) as int
      ensures forall b :: b in r ==> Decodes(b) in businesses
      ensures PageOf(q) >= 1 && ClampedSkip(q) < U32Modulus ==> r == IntendedPage(businesses, q)
    {
      var page := PageOf(q);
      var limit := LimitOf(q);
      var skip := WrappingMul(WrappingSub(page, 1), limit);
      var cursor := Page(businesses, skip as nat, limit as nat);
      r := [];
      var i := 0;
      while i < |cursor|
        invariant 0 <= i <= |cursor|
        invariant r == Decoded(cursor[..i])
      {
        assert cursor[..i + 1][..i] == cursor[..i];
        match cursor[i] {
          case Decodes(b) => r := r + [b];
          case Undecodable =>
        }
        i := i + 1;
      }
      assert cursor[..i] == cursor;
      BusinessPageBounded(businesses, q);
      if page >= 1 && ClampedSkip(q) < U32Modulus {
        BusinessPageIntended(businesses, q);
      }
    }

    /**
      `find_businesses_by_user_id`: an error string under 200 when no user has that text id;
      otherwise the readable businesses whose owner list holds the key, in store order.
    */
    method FindBusinessesByUserId(path: string) returns (r: Reply<seq<Business>>)
      ensures r.Text? <==> !Driver.Exists(users, UserIdIs(TextKey(path), encoding))
      ensures r.Text? ==> r == Text(Ok, "Error 10001 : User does not exist")
      ensures r.Json? ==> r.body == Decoded(Driver.Find(businesses, OwnedBy(TextKey(path), encoding)))
      ensures r.Json? ==> forall b :: b in r.body <==> Decodes(b) in businesses && OwnedBy(TextKey(path), encoding)(Decodes(b))
      ensures r.Json? ==> forall j :: 0 <= j < |r.body| ==>
        r.body[j].user_ids.Some? && HasOwner(r.body[j].user_ids.value, TextKey(path), encoding)
      ensures encoding.AsBinary? ==> r.Text?
    {
      var userExists := Driver.FindOne(users, UserIdIs(TextKey(path), encoding));
      if userExists.None? {
        return Text(Ok, "Error 10001 : User does not exist");
      }
      var filter := OwnedBy(TextKey(path), encoding);
      var cursor := Driver.Find(businesses, filter);
      var found := [];
      var i := 0;
      while i < |cursor|
        invariant 0 <= i <= |cursor|
        invariant found == Decoded(cursor[..i])
      {
        assert cursor[..i + 1][..i] == cursor[..i];
        match cursor[i] {
          case Decodes(b) => found := found + [b];
          case Undecodable =>
        }
        i := i + 1;
      }
      assert cursor[..i] == cursor;
      forall b ensures b in found <==> Decodes(b) in businesses && filter(Decodes(b)) {
        DecodedMembers(cursor, b);
      }
      forall j | 0 <= j < |found| ensures found[j].user_ids.Some? && HasOwner(found[j].user_ids.value, TextKey(path), encoding) {
        assert found[j] in found;
      }
      return Json(found);
    }

    // ----- payment_routes.rs -----

    /**
      `add_payment`: the request's fields with `id` cleared, stored under the `_id` the
      driver generates; a clash with a stored `_id` is the 500 of a failed insert.
    */
    method AddPayment(payment: Payment, oid: ObjectId) returns (status: Status, text: string)
      requires Valid()
      modifies this`payments
      ensures Valid()
      ensures Driver.Exists(old(payments), PaymentIdIs(Some(oid))) ==>
        status == InternalServerError && text == "Failed to add payment" && payments == old(payments)
      ensures !Driver.Exists(old(payments), PaymentIdIs(Some(oid))) ==>
        status == Ok && text == "payment added successfully" &&
        payments == old(payments) + [payment.(id := Some(oid))]
    {
      var newPayment := payment.(id := None);
      var stored := newPayment.(id := Some(oid));
      if Driver.FindOne(payments, PaymentIdIs(stored.id)).Some? {
        return InternalServerError, "Failed to add payment";
      }
      payments := payments + [stored];
      return Ok, "payment added successfully";
    }

    /**
      `update_payment`: sets the nine listed fields on the payment with the request's `_id`;
      the `_id` and every other payment stay as they were, and success is reported either way.
    */
    method UpdatePayment(payment: Payment) returns (status: Status, text: string)
      requires Valid()
      modifies this`payments
      ensures Valid()
      ensures status == Ok && text == "payment updated successfully"
      ensures payments == Driver.UpdateOne(old(payments), PaymentIdIs(payment.id), PaymentUpdate(payment))
      ensures |payments| == |old(payments)|
      ensures forall j :: 0 <= j < |payments| ==>
        payments[j].id == old(payments)[j].id &&
        (payments[j] == old(payments)[j] || (old(payments)[j].id == payment.id && payments[j] == payment))
      ensures payment.id.None? ==> payments == old(payments)
    {
      payments := Driver.UpdateOne(payments, PaymentIdIs(payment.id), PaymentUpdate(payment));
      return Ok, "payment updated successfully";
    }

    /** `delete_payment`: the payment with that `_id` is gone afterwards, nothing else is; success either way. */
    method DeletePayment(oid: ObjectId) returns (status: Status, text: string)
      requires Valid()
      modifies this`payments
      ensures Valid()
      ensures status == Ok && text == "payment deleted successfully"
      ensures payments == Driver.DeleteOne(old(payments), PaymentIdIs(Some(oid)))
      ensures |payments| == if Driver.Exists(old(payments), PaymentIdIs(Some(oid))) then |old(payments)| - 1 else |old(payments)|
      ensures forall j :: 0 <= j < |payments| ==> payments[j].id != Some(oid) && payments[j] in old(payments)
    {
      Driver.DeleteOneCount(payments, PaymentIdIs(Some(oid)));
      DeleteByUniqueId(payments, oid);
      payments := Driver.DeleteOne(payments, PaymentIdIs(Some(oid)));
      return Ok, "payment deleted successfully";
    }

    /** `find_payment`: the payment with that `_id`, or 404. */
    method FindPayment(oid: ObjectId) returns (r: Reply<Payment>)
      ensures r.Json? <==> exists j :: 0 <= j < |payments| && payments[j].id == Some(oid)
      ensures r.Json? ==> r.body.id == Some(oid) && r.body in payments
      ensures r.Text? ==> r == Text(NotFound, "payment not found")
    {
      match Driver.FindOne(payments, PaymentIdIs(Some(oid)))
      case Some(payment) => return Json(payment);
      case None => return Text(NotFound, "payment not found");
    }

    /** `find_payments_by_seller_id`: the payments of that seller, in store order. */
    method FindPaymentsBySellerId(seller_id: string) returns (r: seq<Payment>)
      ensures r == Driver.Find(payments, SellerIs(seller_id))
      ensures forall j :: 0 <= j < |r| ==> r[j].seller_id == seller_id && r[j] in payments
      ensures forall j :: 0 <= j < |payments| && payments[j].seller_id == seller_id ==> payments[j] in r
    {
      var cursor := Driver.Find(payments, SellerIs(seller_id));
      r := [];
      var i := 0;
      while i < |cursor|
        invariant 0 <= i <= |cursor|
        invariant r == cursor[..i]
      {
        r := r + [cursor[i]];
        i := i + 1;
      }
      assert cursor[..i] == cursor;
    }

    /** `find_payments_by_purchaser_id`: the payments of that purchaser, in store order. */
    method FindPaymentsByPurchaserId(purchaser_id: string) returns (r: seq<Payment>)
      ensures r == Driver.Find(payments, PurchaserIs(purchaser_id))
      ensures forall j :: 0 <= j < |r| ==> r[j].purchaser_id == purchaser_id && r[j] in payments
      ensures forall j :: 0 <= j < |payments| && payments[j].purchaser_id == purchaser_id ==> payments[j] in r
    {
      var cursor := Driver.Find(payments, PurchaserIs(purchaser_id));
      r := [];
      var i := 0;
      while i < |cursor|
        invariant 0 <= i <= |cursor|
        invariant r == cursor[..i]
      {
        r := r + [cursor[i]];
        i := i + 1;
      }
      assert cursor[..i] == cursor;
    }

    // ----- message_routes.rs -----

    /**
      `confirm_notification`: sets `confirmed` on the notification with that `_id` and
      nothing else; success whether or not one matched.
    */
    method ConfirmNotification(oid: ObjectId) returns (status: Status, text: string)
      requires Valid()
      modifies this`notifications
      ensures Valid()
      ensures status == Ok && text == "Notification confirmed successfully"
      ensures notifications == Driver.UpdateOne(old(notifications), NotificationIdIs(oid), ConfirmUpdate())
      ensures |notifications| == |old(notifications)|
      ensures forall j :: 0 <= j < |notifications| ==>
        && notifications[j].oid == old(notifications)[j].oid
        && notifications[j].user_id == old(notifications)[j].user_id
        && notifications[j].body.Some? == old(notifications)[j].body.Some?
        && (notifications[j].body.Some? ==>
              notifications[j].body.value.(confirmed := old(notifications)[j].body.value.confirmed) == old(notifications)[j].body.value)
        && (notifications[j] != old(notifications)[j] ==> old(notifications)[j].oid == oid && notifications[j].body.value.confirmed)
    {
      ConfirmMonotone(notifications, oid);
      notifications := Driver.UpdateOne(notifications, NotificationIdIs(oid), ConfirmUpdate());
      return Ok, "Notification confirmed successfully";
    }

    /**
      `get_notifications`: the notifications whose `user_id` field equals the path string,
      in store order, dropping documents that do not deserialise; a failed query or a cursor
      error is a 500.
    */
    method GetNotifications(path: string, fault: CursorFault) returns (r: Reply<seq<Notification>>)
      requires Valid()
      ensures fault == QueryFails ==> r == Text(InternalServerError, "Failed to get notifications")
      ensures var cursor := Driver.Find(notifications, NotificationUserIs(TextKey(path)));
        && (fault.FailsAt? && fault.position < |cursor| ==> r == Text(InternalServerError, "Failed to parse notifications"))
        && (fault == NoFault || (fault.FailsAt? && |cursor| <= fault.position) ==> r == Json(NotificationsOf(cursor)))
      ensures r.Json? ==> forall j :: 0 <= j < |r.body| ==> Encode(r.body[j].user_id, encoding) == TextKey(path)
      ensures r.Json? && encoding.AsBinary? ==> r.body == []
    {
      if fault == QueryFails {
        return Text(InternalServerError, "Failed to get notifications");
      }
      var cursor := Driver.Find(notifications, NotificationUserIs(TextKey(path)));
      var found := [];
      var i := 0;
      while i < |cursor|
        invariant 0 <= i <= |cursor|
        invariant fault.FailsAt? ==> i <= fault.position
        invariant found == NotificationsOf(cursor[..i])
      {
        if fault == FailsAt(i) {
          return Text(InternalServerError, "Failed to parse notifications");
        }
        assert cursor[..i + 1][..i] == cursor[..i];
        match cursor[i].body {
          case Some(n) => found := found + [n];
          case None =>
        }
        i := i + 1;
      }
      assert cursor[..i] == cursor;
      NotificationsOwned(notifications, TextKey(path), encoding);
      if encoding.AsBinary? {
        TextKeyReadsNoNotification(notifications, path, encoding.subtype);
      }
      return Json(found);
    }

    /** `delete_notification`: removes the notification with that `_id`, if any; success either way. */
    method DeleteNotification(oid: ObjectId) returns (status: Status, text: string)
      requires Valid()
      modifies this`notifications
      ensures Valid()
      ensures status == Ok && text == "Notification deleted successfully"
      ensures notifications == Driver.DeleteOne(old(notifications), NotificationIdIs(oid))
      ensures |notifications| == if Driver.Exists(old(notifications), NotificationIdIs(oid)) then |old(notifications)| - 1 else |old(notifications)|
      ensures multiset(notifications) <= multiset(old(notifications))
    {
      Driver.DeleteOneCount(notifications, NotificationIdIs(oid));
      DeleteKeepsKeysAgree(notifications, oid, encoding);
      notifications := Driver.DeleteOne(notifications, NotificationIdIs(oid));
      return Ok, "Notification deleted successfully";
    }

    /** `find_message`: the message with that `_id`, or 404. */
    method FindMessage(oid: ObjectId) returns (r: Reply<Message>)
      ensures r.Json? <==> exists j :: 0 <= j < |messages| && messages[j].oid == oid
      ensures r.Json? ==> MessageDoc(oid, r.body) in messages
      ensures r.Text? ==> r == Text(NotFound, "Message not found")
    {
      match Driver.FindOne(messages, MessageIdIs(oid))
      case Some(d) => return Json(d.message);
      case None => return Text(NotFound, "Message not found");
    }

    /** `delete_message`: removes the message with that `_id`, if any; success either way. */
    method DeleteMessage(oid: ObjectId) returns (status: Status, text: string)
      modifies this`messages
      ensures status == Ok && text == "Message deleted successfully"
      ensures messages == Driver.DeleteOne(old(messages), MessageIdIs(oid))
      ensures |messages| == if Driver.Exists(old(messages), MessageIdIs(oid)) then |old(messages)| - 1 else |old(messages)|
      ensures multiset(messages) <= multiset(old(messages))
    {
      Driver.DeleteOneCount(messages, MessageIdIs(oid));
      messages := Driver.DeleteOne(messages, MessageIdIs(oid));
      return Ok, "Message deleted successfully";
    }
  }
}
