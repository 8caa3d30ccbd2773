# Block-store backend: validators and request handlers in Dafny

This project models the core of a small Flask/SQLAlchemy backend that sells
building blocks (beam blocks, hollow blocks, paving blocks, road kerbs,
services), keeps a picture gallery and takes orders.

- `validators.dfy` (module `Validators`): the two `@validates` hooks of `User`.
  - The email check is a start-anchored pattern followed by lower-casing. The
    pattern is a hand-written predicate: a local part, `@`, a domain, `.`, a
    final label of at least two letters or `|`, and word boundaries at both
    ends of the match.
  - The phone check is a 10 to 15 character length window that lets a missing
    or empty value through.
- `schema.dfy` (module `Schema`): the records and the store.
  - The tables, with the five catalog kinds as one table keyed by kind.
  - How SQLite numbers new rows.
  - The delete cascades user → orders → order lines.
  - What deleting a catalog item does to the order lines that name it.
  - Placing an order with its lines.
- `access.dfy` (module `Access`): `admin_required`, and the self-or-admin and
  owner checks written inline in the handlers, each with its order of error
  statuses.
- `user_patch.dfy` (module `UserPatch`): the `setattr` loop of
  `PATCH /users/<id>`.
- `api.dfy` (module `Api`): class `Store`, one field per table.
  - Every write handler is a method that updates those fields and states the
    exact new store.
  - Every read handler is a function of the fields.
  - A request's token is the user id it carries, or `None` for a request
    with no valid token (401 for a missing one). How a malformed token is
    answered belongs to the JWT verification, which is not modelled.
  - A `KeyError` on a missing body key, a `ValueError` from a validator, an
    `AttributeError` on `None.role` and an `IntegrityError` at commit each end
    the request with 500 and leave the store unchanged.
- `wrappers.dfy` (module `Wrappers`): `Option` and `Result`.

Two behaviours of the code are worth stating outright:

- **Deleting a catalog item keeps its order lines.** The item's relationship to
  `OrderProduct` has no delete cascade, so SQLAlchemy's default sets the foreign
  key of every line that named the item to NULL. The lines themselves stay.
  `DeleteItemUnlink` models that.
- **Re-registering an email answers 422 only when it was typed lower-case.**
  The duplicate check compares the email as typed, but the stored email is
  lower-cased. So re-registering `Alice@x.com` passes the check, and the
  commit then fails on the unique constraint on `email` with 500.
  `RepeatRegistrationRefused` proves both outcomes. No duplicate row is stored
  in either case.

## Model

| member | source | states |
|---|---|---|
| Validators.MatchesAt | models.py:31 | the pattern at fixed positions of `@`, `.` and the label's end; a match ends at position 6 or later and starts with a word character |
| Validators.EmailPattern | models.py:31-32 | `re.match` succeeds: some positions match; an accepted string has at least 6 characters |
| Validators.ValidateEmail | models.py:29-34 | fails (`InvalidEmail`) exactly when the pattern does not match from the first character; on success returns the input lower-cased, character by character |
| Validators.ValidatePhone | models.py:36-40 | succeeds exactly for an absent or empty value or one of length 10 to 15, and then returns the value unchanged; otherwise `InvalidPhoneNumber` |
| Validators.Lower | models.py:34 | same length as the input, each character lower-cased (ASCII) |
| Validators.LowerKeepsMatch | models.py:31-34 | lower-casing keeps a pattern match at the same positions |
| Validators.LowerIdempotent | models.py:34 | lower-casing twice is lower-casing once |
| Validators.ValidateEmailIdempotent | models.py:31-34 | a stored (accepted, lower-cased) email validates again to itself |
| Validators.AcceptedEmailShape | models.py:31 | an accepted email starts with a letter, digit or `_`, has an `@` after its first character and a `.` after that `@` |
| Validators.LeadingNonWordRejected | models.py:31-33 | an empty string, or one starting with a non-word character, is refused |
| Validators.TrailingTextAccepted | models.py:31-32 | only a prefix must match: a full match followed by any text starting with a non-word character is accepted and stored lower-cased whole |
| Validators.MixedCaseEmailStoredLowerCase | models.py:34 | `Alice@x.com` is stored as `alice@x.com` |
| Validators.ShortFinalLabelRejected | models.py:31 | a one-letter final label (`a@b.c`) is refused |
| Validators.BarInFinalLabelAccepted | models.py:31 | `\|` counts as a final-label character |
| Validators.TrailingTextExample | models.py:31-32 | `ann@site.org, Bob` is accepted |
| Validators.PhoneLengthExamples | models.py:38-40 | lengths 9 and 16 refused; 10 and empty accepted unchanged |
| Schema.CheckPassword | app.py:68 | true exactly for the bcrypt hash of the attempt; raises (None) exactly on a stored value that is not a hash |
| Schema.Catalog.WithTable | models.py:46-118 | replaces the table of one catalog kind and leaves the other four as they were |
| Schema.Least | app.py:66 | the smallest key of a non-empty set |
| Schema.SortedKeys | app.py:97 | the keys in strictly ascending order, each exactly once |
| Schema.Rows | app.py:97-98 | `query.all()`: every row once, with its record, in ascending id order |
| Schema.NextRowId | models.py:20 | a new row's id: fresh, positive, above every key in use, 1 in an empty table, one above the largest key otherwise |
| Schema.IdKey | app.py:186 | the body key of each catalog kind (`beamblock_id`, ... at app.py:216, 246, 276, 306), also the entry keys of an order line; each ends in `_id` |
| Schema.IdKeyInjective | app.py:359-363 | no two kinds share a key, so a key names exactly one table |
| Schema.Consistent | models.py:137-149 | every order line's order exists: the invariant the `Order.order_products` cascade keeps |
| Schema.OrdersOf | models.py:27 | exactly the ids of the orders the user owns |
| Schema.LinesOf | models.py:137 | exactly the ids of the lines of the given orders |
| Schema.Unlink | models.py:53 | the line keeps its order and every other reference; its reference to the deleted item is removed (NULL); a line not naming the item is unchanged |
| Schema.DeleteUserCascade | models.py:27 | removes the user, exactly the orders it owns and exactly the lines of those orders; all else unchanged; keeps every line's order present |
| Schema.DeleteItemUnlink | models.py:53 | removes the item from its kind's table only; keeps every order line; a line that named the item has that reference removed (NULL), all other references unchanged; keeps every line's order present |
| Schema.LineRefs | app.py:359-363 | a line refers to a kind exactly when the entry has that kind's id key, with that id |
| Schema.DecodeEntries | app.py:358-364 | one line's references per entry, in order |
| Schema.NewLinesExtend | app.py:358-364 | adding the lines one entry at a time gives the lines for all entries |
| Schema.NewLines | app.py:358-364 | the new lines have exactly the ids base to base + n - 1 and all belong to the new order |
| Schema.NewLineAt | app.py:359-363 | the line numbered base + i is built from the i-th entry |
| Schema.PlaceOrder | app.py:353-368 | keeps users, catalog and gallery and every earlier order and line id |
| Schema.PlaceOrderAddsOneOrder | app.py:355-358 | exactly one new order, owned by the requester, with the supplied total; earlier orders unchanged |
| Schema.NewLinesKeys | app.py:358-364 | the new lines take consecutive fresh ids, one per entry |
| Schema.PlaceOrderAddsLines | app.py:358-364 | exactly one new line per entry, all belonging to the new order; earlier lines unchanged |
| Schema.PlaceOrderCopiesEntry | app.py:359-363 | the i-th new line belongs to the new order and carries the i-th entry's catalog ids |
| Schema.PlaceOrderConsistent | models.py:133-149 | placing an order keeps users, catalog and gallery, and every line's order present |
| Schema.MinimumExists | app.py:66 | every non-empty set of ids has a least element |
| Schema.RangeSize | app.py:358-364 | a range of n consecutive ids has n elements |
| Access.AdminRequired | app.py:39-50 | passes exactly for an admin's token; 401 without a token, 404 for a missing user, 403 for a non-admin |
| Access.SelfOrAdmin | app.py:133-137 | passes exactly when the target exists and the requester is the target or an admin; 404 first, then 403; 500 when a requester other than the target has no row |
| Access.AdminThenTarget | app.py:153-158 | passes exactly for an admin and an existing target; 403 for a non-admin before the target is looked up, then 404; 500 for a requester with no row |
| Access.OwnerOnly | app.py:376-380 | passes exactly for the owner of an existing order; 404 first, then 403; no admin override |
| Access.UserChecksOrderDiffers | app.py:135-156 | for a customer and a missing target, get/patch answer 404 but delete answers 403 |
| Access.SelfAlwaysPasses | app.py:136 | any existing user passes the check on their own id |
| Access.AdminCannotReadOthersOrder | app.py:379-380 | an admin is refused (403) an order they do not own |
| UserPatch.LastValue | app.py:147-148 | present exactly when some entry names the column, and then equal to the value of the last entry that does |
| UserPatch.SetField | app.py:148 | one `setattr` (with the model's validators, models.py:29-40) fails exactly on an email the pattern refuses or a phone number of the wrong length; a non-column key leaves the user unchanged |
| UserPatch.ApplyPatch | app.py:147-148 | the `setattr` loop over the body; a body naming no column leaves the user unchanged |
| UserPatch.KeyName | app.py:147-148 | the JSON key of each column of `users` |
| UserPatch.DecodeKey | app.py:147-148 | a key is a column exactly when it spells one of the five column names exactly; any other key is kept as a plain name |
| UserPatch.DecodeKeyName | app.py:147-148 | every column name decodes to its column |
| UserPatch.DecodeBody | app.py:146-147 | the items of the JSON object in order, one per item, keys decoded |
| UserPatch.PatchFailsIff | app.py:147-148 | the patch fails exactly when some entry is refused |
| UserPatch.PatchOverwrites | app.py:147-148 | a successful patch sets each named column to its last entry's value (email lower-cased, password unhashed) and keeps the rest |
| UserPatch.PatchedPasswordUnusable | app.py:148 | after a patch that sets the password, every password check on that user raises (a hash-shaped text included, see Left out) |
| Access.IsAdmin | app.py:47 | the user exists and its role is `admin` |
| Api.EmailTaken | app.py:105 | some stored user's email equals the string as given |
| Api.UniqueUsers | models.py:21-22 | no two rows share an email or a display name |
| Api.ClashesWith | models.py:21-22 | another row already has the written user's email or display name |
| Api.FirstWithEmail | app.py:66 | none exactly when no user has the email; otherwise the smallest id of a user that does |
| Api.OwnedOrders | app.py:347 | exactly the requester's orders, records unchanged |
| Api.LinesOfOrder | models.py:137 | exactly the lines of the given order, records unchanged |
| Api.Register | app.py:101-116 | 500 without an email; 422 exactly when a stored email equals it as typed; otherwise a user exactly when the name, phone and non-empty password are given and both validators pass, with lower-cased email, hashed password and role defaulting to `customer` |
| Api.UniqueAfterWrite | models.py:21-22 | a write that clashes with no other row keeps emails and display names unique |
| Api.AddUser | app.py:101-117 | succeeds exactly when the registration is accepted and clashes with no row; on success a fresh row id and the registered user, with no clash; the registration's error otherwise, and 500 on a clash |
| Api.RepeatRegistrationRefused | app.py:103-117 | registering the same body again never adds a row; it answers 422 exactly when the email was already lower-case (otherwise 500) |
| Api.BuildLines | app.py:358-364 | the loop over `order_products` builds exactly the new lines of the order |
| Api.Store.Login | app.py:60-77 | 200 only with the id and role of the user found by email whose stored hash matches; 401 when no user has the email or the check fails; 500 when the stored password is not a hash |
| Api.Store.ListUsers | app.py:96-99 | 200 with every user row exactly once, each with its record, in ascending id order |
| Api.Store.PostUser | app.py:101-126 | 201 with a token for the new id and exactly one new user, or the registration's error with the store unchanged; email and name stay unique |
| Api.Store.GetUser | app.py:133-138 | the self-or-admin status, or 200 with the row |
| Api.Store.PatchUser | app.py:141-150 | the body's items, each key once as in a JSON object, keys decoded; the self-or-admin status, or 500 on a refused value or a unique clash, each with the store unchanged; otherwise 200 and only that row replaced by the patched user |
| Api.Store.DeleteUser | app.py:153-160 | the admin-then-target status with the store unchanged, or 200 and exactly the user cascade |
| Api.Store.ListItems | app.py:165-169 | 200 with every item of the kind exactly once, each with its record, in ascending id order |
| Api.Store.PostItem | app.py:171-181 | the admin status, or 500 without a price, each with the store unchanged; otherwise 201 and exactly one new item of that kind with the given price, image and description |
| Api.Store.DeleteItem | app.py:183-190 | the admin status; 404 for a missing or unknown id, store unchanged; otherwise 200 and exactly the unlinking delete |
| Api.Store.ListImages | app.py:316-319 | 200 with every image exactly once, each with its record, in ascending id order |
| Api.Store.PostImage | app.py:321-329 | the admin status with the store unchanged, or 201 and exactly one new image |
| Api.Store.DeleteImage | app.py:331-338 | the admin status; 404 for a missing or unknown id, store unchanged; otherwise 200 and only that image removed |
| Api.Store.ListOrders | app.py:344-349 | 401 without a token; otherwise 200 with exactly the requester's orders, each once, in ascending id order |
| Api.Store.PostOrder | app.py:351-369 | 401 without a token, 500 without a total or product list, store unchanged; otherwise 201 and exactly the order placement for the decoded entries |
| Api.Store.GetOrder | app.py:375-381 | the owner status, or 200 with the order and exactly its lines, each once, in ascending id order |

## Left out

- JWT signing, verification and expiry: a token is the user id it carries, or absent (401). The handlers' generated tokens are the new user's id.
- bcrypt: a hash is the constructor `Hashed(secret)`. Its internals (salts, the 72-byte input limit) are not modelled.
- CORS preflight handling and the index route: HTTP plumbing with no rules.
- `create_admin`: it passes `username`, which is not a column, and no email or phone, so it cannot succeed as written.
- Float prices and totals are opaque literals (`Price`); nothing computes with them. `order_date` (the clock) is not stored.
- Python's `\w` and `str.lower()` are Unicode-aware. The model treats only ASCII letters, digits and `_` as word characters and lower-cases only `A`–`Z`.
- Request bodies hold strings (catalog ids are numbers). JSON values of other types are not modelled, so neither are the errors they cause: a non-string email, a `null` for a NOT NULL column, a non-integer id.
- A missing `password` in a login body, and a body that is not a JSON object, are not modelled. (An empty registration password is refused with 500.)
- Api.Store.PatchUser: a body key naming the primary key `user_id`, the `orders` relationship, or one of the object's own attributes or methods (`__class__`, `to_dict`, `_sa_instance_state`, ...) is not modelled; the model treats such a key as a plain name that stores nothing, while in the code `setattr` raises or the response fails after the commit. The same limit applies to UserPatch.SetField, UserPatch.ApplyPatch and UserPatch.PatchFailsIff.
- UserPatch.PatchedPasswordUnusable: every password text written by PATCH is treated as unreadable by bcrypt. In the code, a text that is itself a well-formed bcrypt hash (say, copied from another row) is read as one, and a login with the matching password then succeeds (200) where the model answers 500. `Hashed`/`Raw` does not model the shape of a hash.
- `Order.user_id` is not checked against `users` (SQLite does not enforce foreign keys by default). An order placed with the token of a deleted user is stored. The only cross-table invariant kept is that every order line's order exists.
- `seed.py` is not part of this model: fixture data only.
