/**
  What the collections hold, the filters the handlers build with `doc!`, and the `$set`
  documents they send. Filters and updates are functions returning a predicate or a
  document transformer, so each one is a single term in handler bodies and contracts alike.
*/
module Documents {
  import opened Wrappers
  import opened Ids
  import opened UserModel
  import opened ProfileModel
  import opened BusinessModel
  import opened NotificationModel
  import opened Records
  import Driver

  /**
    A document of a typed collection: it deserialises into `T`, or it does not (it was
    written by something other than these handlers). An undecodable document is only ever
    seen through the empty filter.
  */
  datatype Stored<T> = Decodes(value: T) | Undecodable

  /**
    A document of the notifications collection as `get_notifications` sees it: its `_id`,
    its `user_id` field as stored, and the notification it deserialises into, if any.
  */
  datatype NotificationDoc = NotificationDoc(oid: ObjectId, user_id: IdKey, body: Option<Notification>)

  /** A message document: the store's `_id` and the message. */
  datatype MessageDoc = MessageDoc(oid: ObjectId, message: Message)

  // ----- filters -----

  function UsernameIs(name: string): User -> bool {
    (u: User) => u.username == name
  }

  function EmailIs(email: string): User -> bool {
    (u: User) => u.email == email
  }

  /** `{"user_id": key}` against a collection that stores Uuids with encoding `enc`. */
  function UserIdIs(key: IdKey, enc: UuidEncoding): User -> bool {
    (u: User) => Encode(u.user_id, enc) == key
  }

  function ProfileEmailIs(email: string): Profile -> bool {
    (p: Profile) => p.email == email
  }

  function ProfileUsernameIs(name: string): Profile -> bool {
    (p: Profile) => p.username == name
  }

  function ProfileIdIs(key: IdKey, enc: UuidEncoding): Profile -> bool {
    (p: Profile) => Encode(p.profile_id, enc) == key
  }

  function BusinessNameIs(name: string): Stored<Business> -> bool {
    (d: Stored<Business>) => d.Decodes? && d.value.name == name
  }

  function BusinessIdIs(key: IdKey, enc: UuidEncoding): Stored<Business> -> bool {
    (d: Stored<Business>) => d.Decodes? && Encode(d.value.business_id, enc) == key
  }

  /** Some owner in the list is stored as `key`. */
  predicate HasOwner(ids: seq<Uuid>, key: IdKey, enc: UuidEncoding) {
    exists k :: 0 <= k < |ids| && Encode(ids[k], enc) == key
  }

  /** `{"user_ids": {"$elemMatch": key}}`, read as membership of the key in the owner list. */
  function OwnedBy(key: IdKey, enc: UuidEncoding): Stored<Business> -> bool {
    (d: Stored<Business>) => d.Decodes? && d.value.user_ids.Some? && HasOwner(d.value.user_ids.value, key, enc)
  }

  function PaymentIdIs(id: Option<ObjectId>): Payment -> bool {
    (p: Payment) => p.id == id
  }

  function SellerIs(seller_id: string): Payment -> bool {
    (p: Payment) => p.seller_id == seller_id
  }

  function PurchaserIs(purchaser_id: string): Payment -> bool {
    (p: Payment) => p.purchaser_id == purchaser_id
  }

  function NotificationIdIs(oid: ObjectId): NotificationDoc -> bool {
    (d: NotificationDoc) => d.oid == oid
  }

  function NotificationUserIs(key: IdKey): NotificationDoc -> bool {
    (d: NotificationDoc) => d.user_id == key
  }

  function MessageIdIs(oid: ObjectId): MessageDoc -> bool {
    (d: MessageDoc) => d.oid == oid
  }

  // ----- $set documents -----

  /** `update_user`'s `$set` of username, email, password and user_type. */
  function UserUpdate(req: User, hashed: string): User -> User {
    (u: User) => u.(username := req.username, email := req.email, password := hashed, user_type := req.user_type)
  }

  /** `{"$set": {"password": hashed}}`. */
  function PasswordUpdate(hashed: string): User -> User {
    (u: User) => u.(password := hashed)
  }

  /** `update_profile`'s `$set` of username and bio. */
  function ProfileUpdate(req: Profile): Profile -> Profile {
    (p: Profile) => p.(username := req.username, bio := req.bio)
  }

  /** The fourteen fields `update_business` sets. */
  function SetBusinessFields(b: Business, req: Business): Business {
    b.(name := req.name, description := req.description, logo := req.logo, pictures := req.pictures,
       founder := req.founder, industry := req.industry, phone := req.phone, address := req.address,
       city := req.city, region := req.region, country := req.country, website := req.website,
       contact_email := req.contact_email, updated_at := req.updated_at)
  }

  function BusinessUpdate(req: Business): Stored<Business> -> Stored<Business> {
    (d: Stored<Business>) =>
      match d
      case Decodes(b) => Decodes(SetBusinessFields(b, req))
      case Undecodable => Undecodable
  }

  /** The nine fields `update_payment` sets; `_id` is not among them. */
  function PaymentUpdate(req: Payment): Payment -> Payment {
    (p: Payment) => p.(purchaser_id := req.purchaser_id, seller_id := req.seller_id,
                       payment_type := req.payment_type, description := req.description,
                       amount := req.amount, currency := req.currency, status := req.status,
                       created_at := req.created_at, updated_at := req.updated_at)
  }

  /** `{"$set": {"confirmed": true}}`. */
  function ConfirmUpdate(): NotificationDoc -> NotificationDoc {
    (d: NotificationDoc) =>
      match d.body
      case Some(n) => d.(body := Some(n.(confirmed := true)))
      case None => d
  }

  // ----- what the guards keep -----

  /** No two users share a username: what the `register_user` guard maintains. */
  predicate UniqueUsernames(users: seq<User>) {
    forall i, j :: 0 <= i < j < |users| ==> users[i].username != users[j].username
  }

  /** No two profiles share an email: what the `register_profile` guard maintains. */
  predicate UniqueProfileEmails(profiles: seq<Profile>) {
    forall i, j :: 0 <= i < j < |profiles| ==> profiles[i].email != profiles[j].email
  }

  /** No two readable businesses share a name: what the `register_business` guard maintains. */
  predicate UniqueBusinessNames(businesses: seq<Stored<Business>>) {
    forall i, j :: 0 <= i < j < |businesses| && businesses[i].Decodes? && businesses[j].Decodes? ==>
      businesses[i].value.name != businesses[j].value.name
  }

  /** Every stored payment carries an `_id`, and no two carry the same one (the `_id` index). */
  predicate PaymentIdsUnique(payments: seq<Payment>) {
    && (forall j :: 0 <= j < |payments| ==> payments[j].id.Some?)
    && (forall i, j :: 0 <= i < j < |payments| ==> payments[i].id != payments[j].id)
  }

  /** A notification document's `user_id` field is its notification's owner as the store encodes it. */
  predicate NotificationKeysAgree(docs: seq<NotificationDoc>, enc: UuidEncoding) {
    forall j :: 0 <= j < |docs| && docs[j].body.Some? ==> docs[j].user_id == Encode(docs[j].body.value.user_id, enc)
  }

  // ----- reading cursors -----

  /** The documents of a stream that deserialise, in stream order. */
  function Decoded<T>(docs: seq<Stored<T>>): (r: seq<T>)
    ensures |r| <= |docs|
  {
    if docs == [] then []
    else
      var init := Decoded(docs[..|docs| - 1]);
      match docs[|docs| - 1]
      case Decodes(x) => init + [x]
      case Undecodable => init
  }

  predicate AllDecode<T>(docs: seq<Stored<T>>) {
    forall j :: 0 <= j < |docs| ==> docs[j].Decodes?
  }

  /** The notifications a stream of raw documents deserialises into, in stream order. */
  function NotificationsOf(docs: seq<NotificationDoc>): (r: seq<Notification>)
    ensures |r| <= |docs|
  {
    if docs == [] then []
    else
      var init := NotificationsOf(docs[..|docs| - 1]);
      match docs[|docs| - 1].body
      case Some(n) => init + [n]
      case None => init
  }

  /** `StreamExt::skip(skip).take(take)` on a finite stream. */
  function Page<T>(docs: seq<T>, skip: nat, take: nat): (r: seq<T>)
    ensures |r| <= take
    ensures skip >= |docs| ==> r == []
    ensures skip + take <= |docs| ==> |r| == take
    ensures skip < |docs| < skip + take ==> |r| == |docs| - skip
    ensures forall j :: 0 <= j < |r| ==> skip + j < |docs| && r[j] == docs[skip + j]
  {
    if skip >= |docs| then []
    else if skip + take <= |docs| then docs[skip..skip + take]
    else docs[skip..]
  }

  // ----- properties of the filters and updates -----

  /** Every decodable document of the stream is returned, and only those. */
  lemma {:induction false} DecodedMembers<T>(docs: seq<Stored<T>>, x: T)
    ensures x in Decoded(docs) <==> Decodes(x) in docs
  {
    if docs != [] {
      var init := docs[..|docs| - 1];
      DecodedMembers(init, x);
      assert docs == init + [docs[|docs| - 1]];
    }
  }

  /** Exactly the readable bodies of the stream are returned: an undecodable document is dropped, nothing else. */
  lemma {:induction false} NotificationsOfMembers(docs: seq<NotificationDoc>, n: Notification)
    ensures n in NotificationsOf(docs) <==> exists j :: 0 <= j < |docs| && docs[j].body == Some(n)
  {
    if docs != [] {
      var init := docs[..|docs| - 1];
      NotificationsOfMembers(init, n);
      assert docs == init + [docs[|docs| - 1]];
      if exists j :: 0 <= j < |docs| && docs[j].body == Some(n) {
        var j :| 0 <= j < |docs| && docs[j].body == Some(n);
        if j < |init| {
          assert init[j].body == Some(n);
        }
      }
    }
  }

  /** A stream whose documents all deserialise loses none of them. */
  lemma {:induction false} DecodedAll<T>(docs: seq<Stored<T>>)
    requires AllDecode(docs)
    ensures |Decoded(docs)| == |docs|
    ensures forall j :: 0 <= j < |docs| ==> Decodes(Decoded(docs)[j]) == docs[j]
  {
    if docs != [] {
      var init := docs[..|docs| - 1];
      DecodedAll(init);
    }
  }

  /** The binary encoding never matches a text key: under it `{"user_id": "<text>"}` finds nobody. */
  lemma TextKeyMissesBinary(users: seq<User>, s: string, t: byte)
    ensures !Driver.Exists(users, UserIdIs(TextKey(s), AsBinary(t)))
  {
  }

  /** Under text storage, a text key from `to_string` finds exactly the users with that id. */
  lemma FormattedUserIdIs(users: seq<User>, id: Uuid)
    ensures forall j :: 0 <= j < |users| ==> (UserIdIs(TextKey(Format(id)), AsText)(users[j]) <==> users[j].user_id == id)
  {
    forall j | 0 <= j < |users| ensures UserIdIs(TextKey(Format(id)), AsText)(users[j]) <==> users[j].user_id == id {
      FormattedKeyMatches(users[j].user_id, id);
    }
  }

  /**
    The owner lookup: under text storage a business is found by a user's text id exactly
    when that user is in its owner list; a business whose owner list is absent is never found.
  */
  lemma OwnedByMembers(b: Business, u: Uuid)
    ensures OwnedBy(TextKey(Format(u)), AsText)(Decodes(b)) <==> b.user_ids.Some? && u in b.user_ids.value
  {
    if b.user_ids.Some? {
      var ids := b.user_ids.value;
      if u in ids {
        var k :| 0 <= k < |ids| && ids[k] == u;
        assert Encode(ids[k], AsText) == TextKey(Format(u));
      }
      if HasOwner(ids, TextKey(Format(u)), AsText) {
        var k :| 0 <= k < |ids| && Encode(ids[k], AsText) == TextKey(Format(u));
        FormatInjective(ids[k], u);
      }
    }
  }

  /** Confirming twice is confirming once. */
  lemma ConfirmIdempotent(docs: seq<NotificationDoc>, oid: ObjectId)
    ensures var once := Driver.UpdateOne(docs, NotificationIdIs(oid), ConfirmUpdate());
      Driver.UpdateOne(once, NotificationIdIs(oid), ConfirmUpdate()) == once
  {
    var f := NotificationIdIs(oid);
    var once := Driver.UpdateOne(docs, f, ConfirmUpdate());
    match Driver.IndexOf(docs, f)
    case None =>
    case Some(i) =>
      assert forall j :: 0 <= j < i ==> once[j] == docs[j];
      assert f(once[i]);
      assert Driver.IndexOf(once, f) == Some(i);
      assert ConfirmUpdate()(once[i]) == once[i];
  }

  /**
    Confirming only ever turns `confirmed` on, in at most one document, and touches nothing
    else: no identifier, owner, message, type or timestamp.
  */
  lemma ConfirmMonotone(docs: seq<NotificationDoc>, oid: ObjectId)
    ensures var after := Driver.UpdateOne(docs, NotificationIdIs(oid), ConfirmUpdate());
      |after| == |docs| &&
      forall j :: 0 <= j < |docs| ==>
        && after[j].oid == docs[j].oid && after[j].user_id == docs[j].user_id
        && after[j].body.Some? == docs[j].body.Some?
        && (docs[j].body.Some? ==>
              after[j].body.value == docs[j].body.value.(confirmed := after[j].body.value.confirmed)
              && (docs[j].body.value.confirmed ==> after[j].body.value.confirmed))
  {
  }

  /** The notifications read through `{"user_id": key}` all belong to the owner the key encodes. */
  lemma NotificationsOwned(docs: seq<NotificationDoc>, key: IdKey, enc: UuidEncoding)
    requires NotificationKeysAgree(docs, enc)
    ensures var r := NotificationsOf(Driver.Find(docs, NotificationUserIs(key)));
      forall j :: 0 <= j < |r| ==> Encode(r[j].user_id, enc) == key
  {
    var cursor := Driver.Find(docs, NotificationUserIs(key));
    forall j | 0 <= j < |cursor| && cursor[j].body.Some?
      ensures cursor[j].user_id == Encode(cursor[j].body.value.user_id, enc)
    {
      var k :| 0 <= k < |docs| && docs[k] == cursor[j];
    }
    ReadNotificationsOwned(cursor, key, enc);
  }

  /** Under binary storage a text key reads no notification at all: what it matches does not deserialise. */
  lemma TextKeyReadsNoNotification(docs: seq<NotificationDoc>, s: string, t: byte)
    requires NotificationKeysAgree(docs, AsBinary(t))
    ensures NotificationsOf(Driver.Find(docs, NotificationUserIs(TextKey(s)))) == []
  {
    var cursor := Driver.Find(docs, NotificationUserIs(TextKey(s)));
    forall j | 0 <= j < |cursor| ensures cursor[j].body.None? {
      var k :| 0 <= k < |docs| && docs[k] == cursor[j];
    }
    NothingReadable(cursor);
  }

  lemma {:induction false} NothingReadable(docs: seq<NotificationDoc>)
    requires forall j :: 0 <= j < |docs| ==> docs[j].body.None?
    ensures NotificationsOf(docs) == []
  {
    if docs != [] {
      NothingReadable(docs[..|docs| - 1]);
    }
  }

  lemma {:induction false} ReadNotificationsOwned(docs: seq<NotificationDoc>, key: IdKey, enc: UuidEncoding)
    requires NotificationKeysAgree(docs, enc)
    requires forall j :: 0 <= j < |docs| ==> docs[j].user_id == key
    ensures forall j :: 0 <= j < |NotificationsOf(docs)| ==> Encode(NotificationsOf(docs)[j].user_id, enc) == key
  {
    if docs != [] {
      ReadNotificationsOwned(docs[..|docs| - 1], key, enc);
    }
  }

  /** With unique `_id`s, deleting by `_id` leaves no payment with that `_id`, and the rest keep theirs. */
  lemma DeleteByUniqueId(payments: seq<Payment>, oid: ObjectId)
    requires PaymentIdsUnique(payments)
    ensures var r := Driver.DeleteOne(payments, PaymentIdIs(Some(oid)));
      PaymentIdsUnique(r) && forall j :: 0 <= j < |r| ==> r[j].id != Some(oid) && r[j] in payments
  {
    var f := PaymentIdIs(Some(oid));
    var r := Driver.DeleteOne(payments, f);
    match Driver.IndexOf(payments, f)
    case None =>
    case Some(i) =>
      assert payments[i].id == Some(oid);
      assert r == payments[..i] + payments[i + 1..];
      forall j | 0 <= j < |r| ensures r[j] == payments[Skip(i, j)] {
      }
      forall j | 0 <= j < |r| ensures r[j].id != Some(oid) && r[j] in payments {
        assert r[j] == payments[Skip(i, j)];
      }
      forall a, b | 0 <= a < b < |r| ensures r[a].id != r[b].id {
        assert r[a] == payments[Skip(i, a)] && r[b] == payments[Skip(i, b)];
      }
  }

  /** The position in the original sequence of item `j` after the item at `i` was removed. */
  function Skip(i: nat, j: nat): (k: nat)
    ensures k != i && (j < k <==> i <= j)
  {
    if j < i then j else j + 1
  }

  /** A password update keeps the email, so the user it updated is the one `find_one` then returns. */
  lemma PasswordUpdateKeepsEmail(users: seq<User>, email: string, hashed: string)
    ensures Driver.FindOne(Driver.UpdateOne(users, EmailIs(email), PasswordUpdate(hashed)), EmailIs(email)) ==
      match Driver.FindOne(users, EmailIs(email))
      case None => None
      case Some(u) => Some(u.(password := hashed))
  {
    Driver.FindOneAfterUpdateOne(users, EmailIs(email), PasswordUpdate(hashed));
  }

  /** Deleting a notification document keeps the stored keys in agreement with the rest. */
  lemma DeleteKeepsKeysAgree(docs: seq<NotificationDoc>, oid: ObjectId, enc: UuidEncoding)
    requires NotificationKeysAgree(docs, enc)
    ensures NotificationKeysAgree(Driver.DeleteOne(docs, NotificationIdIs(oid)), enc)
  {
    var r := Driver.DeleteOne(docs, NotificationIdIs(oid));
    Driver.DeleteOneCount(docs, NotificationIdIs(oid));
    forall j | 0 <= j < |r| && r[j].body.Some? ensures r[j].user_id == Encode(r[j].body.value.user_id, enc) {
      assert r[j] in multiset(r);
      assert r[j] in docs;
      var k :| 0 <= k < |docs| && docs[k] == r[j];
    }
  }

  /**
    The `$set` of `update_user` keeps usernames unique when no stored user holds the new
    username yet: the check `register_user` makes before it inserts.
  */
  lemma RenameToFreshKeepsUnique(users: seq<User>, filter: User -> bool, req: User, hashed: string)
    requires UniqueUsernames(users)
    requires !Driver.Exists(users, UsernameIs(req.username))
    ensures UniqueUsernames(Driver.UpdateOne(users, filter, UserUpdate(req, hashed)))
  {
    var r := Driver.UpdateOne(users, filter, UserUpdate(req, hashed));
    forall i, j | 0 <= i < j < |r| ensures r[i].username != r[j].username {
      assert UsernameIs(req.username)(users[i]) == false;
      assert UsernameIs(req.username)(users[j]) == false;
    }
  }
}
