/**
  Clients of the handlers: sequences of requests against a fresh store, and what the
  handlers' contracts say they must answer.
*/
module Scenarios {
  import opened Wrappers
  import opened Clock
  import opened Ids
  import opened Bcrypt
  import opened ProfileModel
  import opened BusinessModel
  import opened Documents
  import opened Pagination
  import opened Routes
  import UserModel
  import Driver

  /** A registered user logs in with the password they registered, and not with another one. */
  method RegisterThenLogin(h: Hasher, enc: UuidEncoding, userId: Uuid, profileId: Uuid, now: Instant)
    returns (registered: string, right: Status, wrong: Status, wrongText: string)
    requires Sound(h)
    requires !h.verify("wrong", h.hash("secret"))
    ensures registered == "User registered successfully"
    ensures right == Ok && wrong == Unauthorized && wrongText == "Invalid username or password"
  {
    var db := new Database.Connect(enc, h, [], [], [], [], [], []);
    var status, text;
    status, registered := db.RegisterUser(UserModel.NewUser("alice", "alice@example.com", "secret", "customer"), userId, profileId, now);
    assert db.users[0].username == "alice" && db.users[0].password == h.hash("secret");
    right, text := db.LoginUser(LoginRequest("alice", "secret"));
    wrong, wrongText := db.LoginUser(LoginRequest("alice", "wrong"));
  }

  /** After a password change the new password logs in and the old one no longer does. */
  method ChangeThenLogin(h: Hasher, enc: UuidEncoding, userId: Uuid, profileId: Uuid, now: Instant)
    returns (changed: Status, withNew: Status, withOld: Status, retry: string)
    requires Sound(h)
    requires !h.verify("secret", h.hash("better"))
    ensures changed == Ok && withNew == Ok && withOld == Unauthorized
    ensures retry == "Invalid old password"
  {
    var db := new Database.Connect(enc, h, [], [], [], [], [], []);
    var status, text;
    status, text := db.RegisterUser(UserModel.NewUser("alice", "alice@example.com", "secret", "customer"), userId, profileId, now);
    changed, text := db.ChangePassword(PasswordChangeRequest("alice@example.com", "secret", "better"));
    assert db.users[0].username == "alice" && db.users[0].password == h.hash("better");
    withNew, text := db.LoginUser(LoginRequest("alice", "better"));
    withOld, text := db.LoginUser(LoginRequest("alice", "secret"));
    status, retry := db.ChangePassword(PasswordChangeRequest("alice@example.com", "secret", "best"));
  }

  /**
    `register_user` seeds a profile without looking at profile emails: two users with one
    email end up with two profiles sharing it, which `register_profile` itself would refuse.
  */
  method EmailGuardBypass(h: Hasher, enc: UuidEncoding, ids: seq<Uuid>, now: Instant)
    returns (first: string, second: string, direct: string, profiles: seq<Profile>)
    requires |ids| == 4
    ensures first == "User registered successfully" && second == "User registered successfully"
    ensures direct == "Error 10001 : Profile already exists"
    ensures |profiles| == 2 && profiles[0].email == profiles[1].email
    ensures !UniqueProfileEmails(profiles)
  {
    var db := new Database.Connect(enc, h, [], [], [], [], [], []);
    var status;
    status, first := db.RegisterUser(UserModel.NewUser("alice", "shared@example.com", "a", "customer"), ids[0], ids[1], now);
    assert db.users[0].username == "alice";
    status, second := db.RegisterUser(UserModel.NewUser("alyce", "shared@example.com", "b", "customer"), ids[2], ids[3], now);
    assert db.profiles[0].email == "shared@example.com";
    status, direct := db.RegisterProfile(ProfileModel.New(ids[1], now, ids[0], "shared@example.com", "third"));
    profiles := db.profiles;
  }

  /**
    `update_user` has no username guard: under text storage, renaming bob to alice leaves two
    users named alice, which `register_user` would have refused.
  */
  method RenameBreaksUniqueness(h: Hasher, alice: Uuid, bob: Uuid, now: Instant)
    returns (before: seq<UserModel.User>, text: string, after: seq<UserModel.User>)
    requires alice != bob
    ensures UniqueUsernames(before)
    ensures text == "User updated successfully"
    ensures |after| == 2 && after[0].username == "alice" && after[1].username == "alice"
    ensures !UniqueUsernames(after)
  {
    before := [UserModel.New(alice, now, "alice", "a@example.com", "hash-a", "customer"),
               UserModel.New(bob, now, "bob", "b@example.com", "hash-b", "customer")];
    var db := new Database.Connect(AsText, h, before, [], [], [], [], []);
    var status;
    FormattedKeyMatches(alice, bob);
    status, text := db.UpdateUser(UserModel.New(bob, now, "alice", "b@example.com", "secret", "customer"));
    after := db.users;
  }

  /**
    Under binary Uuid storage a business is found by its id's text, but `delete_business`,
    which compares the id as a string, removes nothing; under text storage it is the
    other way round.
  */
  method EncodingSeam(h: Hasher, b: Business)
    returns (foundBinary: Reply<Business>, leftBinary: nat, foundText: Reply<Business>, leftText: nat)
    ensures foundBinary == Json(b) && leftBinary == 1
    ensures foundText == Text(NotFound, "Business not found") && leftText == 0
  {
    ParseFormat(b.business_id);
    ParseAccepts(Format(b.business_id));
    var status, text;

    var binary := new Database.Connect(AsBinary(UserDefinedZero), h, [], [], [Decodes(b)], [], [], []);
    foundBinary := binary.FindBusiness(Format(b.business_id));
    status, text := binary.DeleteBusiness(Format(b.business_id));
    leftBinary := |binary.businesses|;

    var textual := new Database.Connect(AsText, h, [], [], [Decodes(b)], [], [], []);
    foundText := textual.FindBusiness(Format(b.business_id));
    status, text := textual.DeleteBusiness(Format(b.business_id));
    assert Driver.Exists([Decodes(b)], BusinessIdIs(TextKey(Format(b.business_id)), AsText));
    leftText := |textual.businesses|;
  }

  /** Twenty-five readable businesses: page 1 is full, page 2 holds the last five, page 0 is empty. */
  method Paging(h: Hasher, b: Business) returns (first: nat, second: nat, zero: nat)
    ensures first == 20 && second == 5 && zero == 0
  {
    var stored := seq(25, _ => Decodes(b));
    var db := new Database.Connect(AsText, h, [], [], stored, [], [], []);
    var page := db.FindAllBusinesses(PaginationParams(None, None));
    BusinessPageFull(stored, PaginationParams(None, None));
    first := |page|;
    page := db.FindAllBusinesses(PaginationParams(Some(2), None));
    assert SkipAsWritten(PaginationParams(Some(2), None)) == 20;
    DecodedAll(stored[20..]);
    second := |page|;
    page := db.FindAllBusinesses(PaginationParams(Some(0), None));
    BusinessPageZeroEmpty(stored, 20);
    zero := |page|;
  }
}
