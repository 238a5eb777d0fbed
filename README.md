# cucura-backend handlers in Dafny

This project models the HTTP handlers of the cucura backend, an actix-web service over a MongoDB
database named `cucura-ccdb`. The handlers cover users, authentication, profiles, businesses,
payments, notifications and messages. The handler logic is small: existence and uniqueness
guards, a user registration that also seeds a profile, owner and role lookups, business list
pagination, password rules over bcrypt, a `confirmed` flag, and Uuid parsing. The model states
that logic as contracts and proves it.

Layout:

- `common.dfy`: `Option` and the clock's `Instant`.
- `ids.dfy`:
  - Uuids (16 bytes) and ObjectIds (12 bytes).
  - `Uuid::to_string` (`Format`) and `Uuid::parse_str` (`Parse`), as in uuid 1.x. `Parse`
    accepts the simple, hyphenated, braced and `urn:uuid:` forms with hex digits of either
    case. The hyphenated form is the 8-4-4-4-12 layout of section 3 of RFC 4122.
  - How a stored Uuid field compares with a query key.
- `driver.dfy`: the driver calls. A collection is a sequence in natural order. `find_one`,
  `update_one` and `delete_one` act on the first match, and `find` keeps every match in order.
- `bcrypt.dfy`: `hash` and `verify` as two function values. `Sound(h)` means
  `verify(p, hash(p))` for every `p`. It is a precondition where needed, never an axiom.
- `user.dfy`, `profile.dfy`, `business.dfy`, `notification.dfy`, `records.dfy`: the records and
  their constructors.
- `documents.dfy`:
  - The filters the handlers build with `doc!`, as predicates.
  - The `$set` documents, as record updates.
  - Cursor decoding and `skip`/`take`.
  - The invariants the guards keep.
- `pagination.dfy`: the `u32` page arithmetic of `find_all_businesses`.
- `routes.dfy`: class `Database`.
  - It holds the six collections as `seq` fields.
  - Each handler is one method. It changes only the fields in its `modifies` clause, and its
    `ensures` states the new contents and the answer.
  - A lookup handler answers `Reply.Json(body)`, which is a 200 with a body, or
    `Reply.Text(status, text)`. The three list handlers `FindAllBusinesses`,
    `FindPaymentsBySellerId` and `FindPaymentsByPurchaserId` return the list itself, which
    the source always sends as a 200 body. The other handlers answer a status and a text.
- `scenarios.dfy`: request sequences against a fresh store.

How Uuid fields are stored depends on serde settings that are not part of the handlers. The
class therefore has a constant `encoding`: text (`AsText`) or binary with a subtype byte
(`AsBinary(t)`). A stored Uuid matches a key exactly when the key is that Uuid's encoding.
Three handlers query with binary subtype 0 (`UserDefined(0)` is the byte 0x00):
`find_business`, `find_profile`, and the existence check of `update_business`. Every other
handler that takes a Uuid compares it with a text key:
- `update_user` and `delete_user` take the id's text form;
- `delete_business`, `find_businesses_by_user_id` and `get_notifications` take the path string.

The payment, notification and message handlers that take an id look up the store's
ObjectId `_id`, which does not depend on the Uuid encoding.

The contracts show the consequence:
- Under text storage, the three binary lookups never find anything. `find_business` and
  `find_profile` answer 404, and every `update_business` answers
  "Error 10001 : Business does not exist".
- Under binary storage, the text filters never match.

`update_user` has no username guard, so a rename can give two users the same username,
which `register_user` refuses. `Scenarios.RenameBreaksUniqueness` shows such a rename, and
`Documents.RenameToFreshKeepsUnique` shows that renaming to a username no user holds keeps
usernames unique.

Documents that fail to deserialise are modelled too:
- the businesses collection holds `Stored<Business>`, and such a document is dropped while
  reading;
- a notification document may lack a readable body.

`Valid()` holds two facts about the stored documents:
- every stored payment has a distinct `_id`. The store guarantees this through its unique
  index on `_id`.
- a notification document's `user_id` field is exactly its owner's encoding, which under
  text storage is the lower-case hyphenated `to_string` form. MongoDB does not enforce this.
  It is an assumption: every notification document was written by the program's own
  serialiser.

`Connect` requires both facts and establishes `Valid()`. `Valid()` reads only the payments
and notifications fields. A handler that changes another collection therefore keeps it by
its `modifies` frame alone, and each handler that changes payments or notifications states
that it keeps `Valid()`.

The source's own quirks are kept:
- `find_profile` answers a malformed id with the text "Invalid business ID format";
- `register_user` answers "Error: User already exists" with status 200;
- `update_profile` sets the username it matched on, so the username is set to its own value.

`NewUser` and its `to_user` are not in `src/models/user.rs`. `UserModel.ToUser` reads them
as `User::new` over the four request fields. `NewUser::to_user` is not part of this model.

## Model

| member | source | states |
|---|---|---|
| Ids.ParseFormat | src/routes/business_routes.rs:86-91 | the text `to_string` writes is canonical, and `parse_str` of it gives back the same Uuid, so the 400 branch of `update_business` is unreachable |
| Ids.FormatInjective | src/routes/user_routes.rs:56 | two Uuids have the same text form exactly when they are equal |
| Ids.FormatParse | src/routes/business_routes.rs:61 | every canonical string is the text form of the Uuid it parses to |
| Ids.ParseAccepts | src/routes/business_routes.rs:61-66 | `parse_str` succeeds exactly on strings in one of the four accepted layouts, with a hex digit at every digit position |
| Ids.HyphenatedDefined | src/routes/profile_routes.rs:90-95 | a 36-character string parses exactly when it has hyphens at positions 8, 13, 18 and 23 and hex digits elsewhere |
| Ids.BytesOfHexOf | src/routes/business_routes.rs:68 | decoding the hex text of some bytes gives back those bytes |
| Ids.BytesOfHexDefined | src/routes/business_routes.rs:61 | hex decoding succeeds exactly on even-length strings of hex digits |
| Ids.HexOfBytesOf | src/routes/business_routes.rs:86 | a lower-case hex string of even length is the hex text of the bytes it decodes to |
| Ids.TextKeyMatches | src/routes/business_routes.rs:137 | a text key matches a stored Uuid only under text storage, and only that Uuid's own text |
| Ids.FormattedKeyMatches | src/routes/user_routes.rs:77 | under text storage the key built from `to_string` matches exactly that Uuid |
| Ids.BinaryQueryMatches | src/routes/business_routes.rs:67-68 | the subtype-0 binary key matches only under binary subtype-0 storage, and only that Uuid |
| Driver.IndexOf | src/routes/user_routes.rs:29 | the position of the first document the filter matches, or none when no document matches |
| Driver.FindOne | src/routes/user_routes.rs:92 | `find_one` returns a document exactly when one matches; it returns the first match, which satisfies the filter and is stored |
| Driver.UpdateOne | src/routes/user_routes.rs:66 | `update_one` applies the `$set` to the first match only; the length is kept, and nothing changes when nothing matches |
| Driver.DeleteOne | src/routes/user_routes.rs:79 | `delete_one` removes the first match only, and nothing when nothing matches |
| Driver.Find | src/routes/payment_routes.rs:137 | `find` returns only stored documents that match, and every match |
| Driver.DeleteOneCount | src/routes/profile_routes.rs:77 | a delete removes one document when one matches and none otherwise, and it never adds any |
| Driver.FindOneAfterUpdateOne | src/routes/auth_routes.rs:80-86 | after an update that keeps the filter true, `find_one` returns the updated first match |
| Driver.FindAppend | src/routes/payment_routes.rs:137-147 | `find` over two concatenated collections is the concatenation of the two results, so store order is kept |
| UserModel.New | src/models/user.rs:16-26 | `User::new` copies username, email, password and user_type unchanged; the id is the fresh one, and both timestamps are the one clock reading the model passes in |
| UserModel.ToUser | src/models/user.rs:16-26 | the user registration stores: the request's four fields unchanged, the fresh id, and the clock reading in both timestamps |
| UserModel.NewIdIgnoresFields | src/models/user.rs:18 | definitional: the id does not depend on the fields given, and different fields give different users |
| ProfileModel.New | src/models/profile.rs:20-33 | `Profile::new` copies user_id, email and username into the same-named fields, and all four details are None |
| ProfileModel.NewWithDetails | src/models/profile.rs:35-56 | `new_with_details` wraps each detail in Some and copies the other fields |
| ProfileModel.ConstructorsDiffer | src/models/profile.rs:20-56 | the two constructors agree except for the details, and only `new` gives a bare profile |
| BusinessModel.New | src/models/business.rs:27-55 | `Business::new` copies user_ids, name, description, founder, industry, phone and country; the seven optional details are None |
| NotificationModel.New | src/models/notification.rs:24-37 | `Notification::new` copies type, user_id and message, always starts with `confirmed` false, and stamps both timestamps |
| NotificationModel.TypesAreThree | src/models/notification.rs:6-11 | definitional: there are exactly three notification types, and the default is SomeoneSentMessage |
| Documents.Decoded | src/routes/business_routes.rs:168-174 | reading a cursor keeps at most as many items as it yields |
| Documents.DecodedMembers | src/routes/business_routes.rs:168-174 | an item comes out of the read loop exactly when a stored document deserialises to it |
| Documents.DecodedAll | src/routes/business_routes.rs:168-174 | when every document deserialises, reading keeps all of them, in order |
| Documents.NotificationsOfMembers | src/routes/message_routes.rs:130-145 | a notification is read exactly when some document of the stream has it as its body; undecodable documents are dropped and nothing else is |
| Documents.NotificationsOf | src/routes/message_routes.rs:130-145 | the notifications read never outnumber the documents |
| Documents.Page | src/routes/business_routes.rs:161-166 | `skip(s).take(t)` returns at most t items; they are the documents from offset s on, contiguous and in order; it is empty past the end and full when the collection is long enough |
| Documents.TextKeyMissesBinary | src/routes/business_routes.rs:189 | under binary storage a text `user_id` filter finds no user |
| Documents.FormattedUserIdIs | src/routes/user_routes.rs:56 | under text storage the filter on the id's text matches exactly the users with that id |
| Documents.OwnedByMembers | src/routes/business_routes.rs:196 | under text storage the owner filter holds exactly when the user is in `user_ids`; a business without an owner list is never matched |
| Documents.ConfirmIdempotent | src/routes/message_routes.rs:162-165 | confirming twice leaves the collection as confirming once does |
| Documents.ConfirmMonotone | src/routes/message_routes.rs:163 | confirming only ever turns `confirmed` on; identifiers, owners and all other fields are unchanged |
| Documents.PasswordUpdateKeepsEmail | src/routes/auth_routes.rs:58-63 | after a password update by email, `find_one` by that email returns the same user with the new password |
| Documents.NotificationsOwned | src/routes/message_routes.rs:123-146 | every notification read through `{"user_id": key}` belongs to the owner whose encoding is that key |
| Documents.TextKeyReadsNoNotification | src/routes/message_routes.rs:123 | under binary storage, the text `user_id` filter reads no notification |
| Documents.DeleteByUniqueId | src/routes/payment_routes.rs:84-86 | with unique `_id`s, no payment with that `_id` is left after the delete; ids stay unique, and the rest were stored before |
| Pagination.Defaults | src/routes/business_routes.rs:157-158 | without query parameters the handler skips nothing and takes 20 |
| Pagination.SkipIsOffset | src/routes/business_routes.rs:157-159 | from page 1 on, and while it fits in 32 bits, the skip is `(page - 1) * limit` |
| Pagination.PageZeroWraps | src/routes/business_routes.rs:159 | at page 0 the `u32` subtraction wraps, and the skip becomes 2^32 - limit |
| Pagination.LargePageWraps | src/routes/business_routes.rs:159 | page 2^31 + 1 with limit 2 wraps back to the skip of page 1 |
| Pagination.ClampedSkipMonotone | src/routes/business_routes.rs:159 | the intended skip never decreases as the page grows |
| Routes.PageMembers | src/routes/business_routes.rs:161-174 | every item of a page deserialises from a stored document |
| Routes.BusinessPageBounded | src/routes/business_routes.rs:161-174 | a page holds at most `limit` businesses, each one stored |
| Routes.BusinessPageIntended | src/routes/business_routes.rs:157-166 | from page 1 on, while the offset fits in `u32`, the handler's page is the intended page |
| Routes.BusinessPageFull | src/routes/business_routes.rs:165-174 | when every document deserialises and the page lies inside the collection, it holds exactly `limit` items |
| Routes.BusinessPageZeroEmpty | src/routes/business_routes.rs:159-166 | as written, page 0 returns nothing for any collection smaller than 2^32 - limit |
| Routes.IntendedPageZeroIsFirst | src/routes/business_routes.rs:157-159 | corrected: page 0 is page 1, and it is full when there are enough documents |
| Routes.Database.RegisterUser | src/routes/user_routes.rs:18-48 | the password is hashed before the guard; a taken username leaves users and profiles unchanged; otherwise exactly the hashed user and a bare profile with its id, email and username are appended; unique usernames stay unique |
| Documents.RenameToFreshKeepsUnique | src/routes/user_routes.rs:56-64 | when no user holds the new username, the `$set` of `update_user` keeps usernames unique |
| Routes.Database.UpdateUser | src/routes/user_routes.rs:50-73 | only username, email, password (re-hashed) and user_type of the user with that id change; ids and timestamps are kept; binary storage changes nothing; success is always reported |
| Routes.Database.DeleteUser | src/routes/user_routes.rs:75-86 | under text storage, at most one user with that id is removed; nothing else is touched; success is always reported |
| Routes.Database.FindUser | src/routes/user_routes.rs:88-100 | returns a stored user with that username exactly when one exists; otherwise 404 "User not found" |
| Routes.Database.LoginUser | src/routes/auth_routes.rs:33-54 | answers 200 exactly when the first user with that username verifies the password; an unknown user and a wrong password get the same 401 text; nothing is written |
| Routes.Database.SetPassword | src/routes/auth_routes.rs:56-69 | with no old-password check, only the password of the first user with that email becomes `hash(password)`; success is always reported |
| Routes.Database.ChangePassword | src/routes/auth_routes.rs:71-102 | an unknown email returns 401 "Invalid username" and a wrong old password returns 401 "Invalid old password", both with no change; otherwise only the password becomes `hash(new)`, and under sound bcrypt the new password verifies |
| Routes.Database.RegisterProfile | src/routes/profile_routes.rs:26-49 | a taken email changes nothing; otherwise exactly the submitted profile is appended; unique emails stay unique |
| Routes.Database.UpdateProfile | src/routes/profile_routes.rs:51-70 | at most the first profile with that username changes, and only in its bio; success is always reported |
| Routes.Database.DeleteProfile | src/routes/profile_routes.rs:72-86 | at most one profile with that username is removed; success is always reported |
| Routes.Database.FindProfile | src/routes/profile_routes.rs:87-106 | answers 400 exactly on malformed ids; otherwise it finds the profile with the binary id, or answers 404; outside binary subtype-0 storage it never finds one |
| Routes.Database.FindProfileByUsername | src/routes/profile_routes.rs:108-124 | returns a stored profile with that username exactly when one exists; otherwise 404 |
| Routes.Database.RegisterBusiness | src/routes/business_routes.rs:33-56 | a taken name changes nothing; otherwise exactly that business is appended; unique names stay unique |
| Routes.Database.FindBusiness | src/routes/business_routes.rs:58-77 | answers 400 exactly on malformed ids; otherwise it finds the business with the binary id, or answers 404; outside binary subtype-0 storage it never finds one |
| Routes.Database.UpdateBusiness | src/routes/business_routes.rs:79-132 | answers 400 only if re-parsing fails, which never happens; a missing id changes nothing; otherwise exactly the fourteen listed fields of the first match are set, and nothing else changes |
| Routes.Database.DeleteBusiness | src/routes/business_routes.rs:134-148 | at most one business is removed, matched by the path as text; binary storage changes nothing; success is always reported |
| Routes.Database.FindAllBusinesses | src/routes/business_routes.rs:150-177 | returns the page at the wrapped `u32` skip, minus undecodable items; at most `limit` items, all stored; from page 1 on, without overflow, this is the intended page |
| Routes.Database.FindBusinessesByUserId | src/routes/business_routes.rs:180-209 | with no user for that id, answers the error text; otherwise returns exactly the readable businesses whose `user_ids` holds the id, in store order; binary storage always gets the error text |
| Routes.Database.AddPayment | src/routes/payment_routes.rs:26-50 | stores the request's fields under the driver's new `_id`; a duplicate `_id` fails with 500 and changes nothing; ids stay unique |
| Routes.Database.UpdatePayment | src/routes/payment_routes.rs:52-79 | only the payment with the request's `_id` gets the nine fields, and its `_id` is kept; ids stay unique; success is always reported |
| Routes.Database.DeletePayment | src/routes/payment_routes.rs:81-95 | no payment with that `_id` remains, and the rest were stored before; success is always reported |
| Routes.Database.FindPayment | src/routes/payment_routes.rs:97-110 | returns the payment with that `_id` exactly when one exists; otherwise 404 |
| Routes.Database.FindPaymentsBySellerId | src/routes/payment_routes.rs:129-148 | returns exactly the payments of that seller, in store order, without writing |
| Routes.Database.FindPaymentsByPurchaserId | src/routes/payment_routes.rs:150-169 | returns exactly the payments of that purchaser, in store order, without writing |
| Routes.Database.ConfirmNotification | src/routes/message_routes.rs:155-174 | sets `confirmed` on the notification with that `_id` and nothing else; success is always reported |
| Routes.Database.GetNotifications | src/routes/message_routes.rs:118-153 | a failed query or cursor error is a 500; otherwise returns the readable notifications under that key, in order; when every stored key is its owner's encoding, they all belong to that owner, and none is read under binary storage |
| Documents.DeleteKeepsKeysAgree | src/routes/message_routes.rs:176-194 | deleting a notification keeps every remaining document's `user_id` in agreement with its body's owner |
| Routes.Database.DeleteNotification | src/routes/message_routes.rs:176-194 | at most one notification is removed; success is always reported |
| Routes.Database.FindMessage | src/routes/message_routes.rs:46-59 | returns the message with that `_id` exactly when one exists; otherwise 404 "Message not found" |
| Routes.Database.DeleteMessage | src/routes/message_routes.rs:61-75 | at most one message is removed; success is always reported |
| Scenarios.RegisterThenLogin | src/routes/auth_routes.rs:38-53 | after registering, the registered password logs in; a password that does not verify gets "Invalid username or password" |
| Scenarios.ChangeThenLogin | src/routes/auth_routes.rs:78-96 | after a password change the new password logs in, and the old one neither logs in nor changes the password again |
| Scenarios.EmailGuardBypass | src/routes/user_routes.rs:28-43 | two users with one email both register and get profiles sharing the email, which `register_profile` would refuse |
| Scenarios.RenameBreaksUniqueness | src/routes/user_routes.rs:50-73 | with users alice and bob under text storage, renaming bob to alice is accepted and leaves two users named alice |
| Scenarios.EncodingSeam | src/routes/business_routes.rs:58-148 | under binary storage a business is found by its id's text but cannot be deleted by it; under text storage it is deleted but never found |
| Scenarios.Paging | src/routes/business_routes.rs:157-166 | with 25 readable businesses, page 1 holds 20, page 2 holds 5, and page 0 holds none |

## Left out

- `find_all_users`, `find_all_profiles`, `find_all_payments` and `find_all_messages` are not
  modelled. Each is a read of the whole collection with the read loop that
  `FindAllBusinesses` models.
- Store failures: the 500 answer of each insert, update, delete and find is not modelled.
  The two exceptions are a duplicate `_id` in `add_payment` and the two notification cursor
  faults. A `find_one(...).unwrap()` or `find(...).unwrap()` that would panic is assumed to
  succeed.
- A path that is not a valid ObjectId makes `ObjectId::parse_str(...).unwrap()` panic. That
  panic is not modelled: the methods take an ObjectId that has already been parsed.
- Request extraction (`web::Json`, `web::Path<Uuid>`, `web::Query`) and its 400 answers
  belong to the framework. The methods take the extracted values.
- bcrypt internals, Uuid generation, the driver's ObjectId generation and the clock are
  parameters. The `Hasher`'s `verify` returns a plain boolean. When a stored password is not
  a well-formed bcrypt hash, `verify(...).unwrap()` panics in `login_user` and
  `change_password` (src/routes/auth_routes.rs:42 and 80). Routes.Database.LoginUser and
  Routes.Database.ChangePassword do not model that panic. `RegisterUser` uses one clock reading for the user and its profile, although
  the source reads the clock separately for each.
- UserModel.New, ProfileModel.New, ProfileModel.NewWithDetails, BusinessModel.New and
  NotificationModel.New take one clock reading for both `created_at` and `updated_at`. The
  source calls `Utc::now()` once for each field, so the two stamps can differ slightly.
- Encoding and decoding of BSON is not modelled. Which documents deserialise is part of the
  collection's state. An undecodable business never matches a filter on a business field.
  This changes the outcome in two places:
  - Routes.Database.DeleteBusiness: `delete_one` filters the raw document, so the source also
    deletes an undecodable document whose `business_id` equals the path. The model never
    deletes one.
  - Routes.Database.FindBusiness, Routes.Database.RegisterBusiness and
    Routes.Database.UpdateBusiness: when the first document `find_one` matches cannot be
    deserialised, the source gets an error, which is a 500 in `find_business` and an
    `unwrap` panic in the other two. The model skips that document.
- Routes.Database.GetNotifications, Documents.NotificationsOwned and
  Documents.TextKeyReadsNoNotification rest on `Valid()`'s assumption that a notification's
  `user_id` is exactly its owner's encoding. The source filters the raw document on the path
  string, then deserialises it with `parse_str`, which also accepts upper-case, simple,
  braced and `urn:uuid:` text. So the source returns a notification stored as
  "6BA7B810-9DAD-11D1-80B4-00C04FD430C8" to the identical path, even though that owner's
  `to_string` differs from the path. Such notifications stored with non-canonical text are
  not modelled, and neither is a collection that mixes encodings. `Connect` refuses both.
- Routes.Database.FindPaymentsBySellerId and Routes.Database.FindPaymentsByPurchaserId: the
  source logs and drops a cursor item that fails to deserialise. In the model every payment
  deserialises, so the two views never drop one.
- Routes.Database.ConfirmNotification: when the body of a document cannot be read, the model
  leaves the document unchanged. The source's `$set` would still write `confirmed`.
- `$elemMatch` with a plain string operand is read as membership of that value in
  `user_ids`. The server's handling of that operand is not modelled.
- Pagination follows a release build, where `u32` arithmetic wraps. A debug build panics at
  page 0 instead.
- The `updated_at` fields are not refreshed by any update, exactly as in the source.
- `update_profile` matches on the username it also sets, so the model keeps usernames
  unchanged. No other key is modelled.
- `send_message` and `create_notification` build records from fields that the records do
  not have. Their behaviour is not defined by the source, so they are not modelled.
- The records of payments, messages and ratings carry no behaviour. Payment's `amount` is
  an `f64`, kept as its 64 bits and only copied.
- `main.rs`, `sample_data.rs` and the training, rating, review and business-review routes
  are not part of this model.
- Concurrent requests are not modelled. In particular the race between two registrations is
  not: each guard is stated for one request at a time.

## Findings

| source | as written | input that shows it | evidently intended | confidence | as-written member | corrected member |
|---|---|---|---|---|---|---|
| src/routes/business_routes.rs:159 | `let skip = (page - 1) * limit;` in `u32` | `?page=0` with the default limit 20: the subtraction wraps, the skip becomes 4294967276, and the page comes back empty. A debug build panics instead. Page 2147483649 with limit 2 wraps back to page 1. | page 0 read as page 1, and a skip that never wraps | not executed; high | Routes.BusinessPageZeroEmpty | Routes.IntendedPageZeroIsFirst |

`Pagination.ClampedSkip` gives the intended skip, and `Pagination.ClampedSkipMonotone` shows
that it never decreases as the page grows. `Routes.IntendedPage` is the page at that skip.
`FindAllBusinesses` equals it from page 1 on, as long as nothing overflows.
