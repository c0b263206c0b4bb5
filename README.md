# ShareMyAnimalAPI — a Dafny model of its authentication and listing core

ShareMyAnimalAPI is an Express/MongoDB backend where users register,
receive a pair of JSON Web Tokens, and publish posts about animals drawn
from a catalogue of animal categories and breeds. This project models, in
Dafny, the parts of it that carry logic:

- **Bearer tokens** (`Token` module, `token.dfy`): `decode_token`, the
  parser of `Authorization: Bearer <token>` headers, with JavaScript's
  `split(" ")` written out exactly, and the two token generators recorded
  as data (claim name, claim form, secret variable, lifetime). The
  jsonwebtoken library's `sign`, `verify` and `decode` are foreign code and
  enter as the function values of a `JwtLib`; what the round-trip and
  cross-key lemmas assume of them is stated as their `requires`
  (`Faithful`, `KeyBound`).
- **Registration** (`Registration` module, `registration.dfy`):
  `check_email_exist` and `POST /api/v1/register` as a method of a
  `UserStore` class whose field is the user collection. It keeps emails
  unique and stores the bcrypt output, not the password.
- **Animals** (`Animals` module, `animals.dfy`): `POST /api/v1/animals`
  and `GET /api/v1/animals` over an `AnimalStore`.
- **Animal posts** (`AnimalPosts` module, `animal_posts.dfy`): the
  `isValidAnimalId` and `isValidBreed` checks, create, delete and update
  filtered by post id and author id with their 404/500/200 outcomes, and
  the `my_posts` and `all_posts` listings over a `PostStore`.
- **Sorting** (`Sorting` module, `sorting.dfy`): the comparator shared by
  the three listing routes, and `Array.prototype.sort` as an in-place
  insertion sort on an `array`, proved sorted by that comparator and a
  permutation of its input.
- `object_id.dfy` models `new ObjectId(text)`. `http.dfy` holds the
  record shapes of `models.ts`, the `utils.STATUS` codes and the response
  bodies. `wrappers.dfy` holds `Option` and `Result`.

Inputs the handlers get from their environment are parameters:
- the verdict of the express-validator chain (`validationFailed`);
- whether the store accepted a `save()` (`saveOk`);
- the `_id` and `Date.now` default the store assigns (`newId`, `now`);
- the clock for `updateDate` (`now`);
- `process.env` (`Env`);
- `Crypt.crypt_password` for this request (`crypt`);
- the id of the user behind the request (`caller`).

Timestamps are integer milliseconds.

Some behaviour of the code is stated as written:
- `"Bearer "` with nothing after it passes the parse and hands the empty
  string to `verify` (`Token.EmptyTokenReachesVerify`).
- A registration whose token signing fails (a missing or empty secret)
  answers 500, but the user has already been saved.
- The token envelope says `expires_in: "1800s"`, while the access token is
  signed with `expiresIn: "18000s"`. Both are recorded as written.
- An update spreads the plain fields of the request body into the post.
  It may therefore rewrite `authorId` and `animalId`, and it checks
  neither against the animal catalogue. Mongoose casts text to object ids first. Text that
  does not cast answers 500 and changes nothing. An id in another letter
  case is the same id. When the author really changes, the re-read that
  follows finds nothing and the answer is 200 with `null`.
- No validator guards those two fields, and a JSON `null` is written as
  is. `{"authorId": null}` answers 200 with `null` and leaves a post that
  no caller can delete, update or list (`AnimalPosts.NullAuthorOrphaned`).
  `{"animalId": null}` answers 200 with a post whose animal is `null`.
  Stored posts therefore hold `Option` ids for author and animal.
- Every stored `_id` is in the canonical form the store hands out, and a
  post's author and animal are either `null` or canonical. This is part
  of each store's `Valid()`.

## Model

| member | source | states |
|---|---|---|
| ObjectIds.Parse | src/AnimalsPost/routes.ts:94 | `new ObjectId(text)` succeeds exactly on 24 hex digits and yields their lower-case form, a canonical id |
| ObjectIds.ParseCanonical | src/AnimalsPost/routes.ts:94 | parsing the text of a stored id gives that id back |
| Token.Split | src/Authentification/token.ts:28 | `split(" ")` yields one more piece than the text has spaces, and no piece contains a space |
| Token.JoinSplit | src/Authentification/token.ts:28 | joining the pieces of `split(" ")` with single spaces gives back the header |
| Token.SplitJoin | src/Authentification/token.ts:28-29 | space-free pieces joined by single spaces split back into exactly those pieces |
| Token.BearerSplit | src/Authentification/token.ts:28-32 | for a space-free token `t`, `"Bearer " + t` splits into exactly `["Bearer", t]` |
| Token.DecodeToken | src/Authentification/token.ts:24-41 | a missing header fails with "No authorization"; any other failure is "Your Bearer token is invalid"; success means the header is `"Bearer "` plus a space-free token that verified under the caller's key, and the result is that token's decoding |
| Token.DecodeBearer | src/Authentification/token.ts:28-39 | for a space-free token, `decode_token` verifies exactly that token and returns the decoding of that token alone, or fails when verification fails |
| Token.DecodeTokenAccepts | src/Authentification/token.ts:25-39 | `decode_token` succeeds if and only if the header is `"Bearer "` plus a space-free token that verifies under the given key |
| Token.RejectsPieces | src/Authentification/token.ts:28-30 | a header whose `split(" ")` is not exactly `"Bearer"` and one token fails with "Your Bearer token is invalid", whatever the key |
| Token.MalformedHeaders | src/Authentification/token.ts:28-30 | `"Bearer a b"`, `"Bearer  a"`, `"Token abc"` and `"bearer abc"` are all rejected as an invalid Bearer token |
| Token.EmptyTokenReachesVerify | src/Authentification/token.ts:28-32 | `"Bearer "` passes the parse and its empty token is what `verify` sees |
| Token.Issue | src/Authentification/token.ts:5-23 | a generator signs the issuer's claim over the user's id, with the issuer's secret and lifetime; it fails exactly when that secret is undefined or empty |
| Token.GenerateAccessToken | src/Authentification/token.ts:5-14 | signs `{_id: String(user._id)}` with `ACCESS_TOKEN_SECRET` for `18000s`, and fails exactly when that secret is undefined or empty |
| Token.GenerateRefreshToken | src/Authentification/token.ts:15-23 | signs `{id: user._id}` with `REFRESH_TOKEN_SECRET` for `5 days`, and fails exactly when that secret is undefined or empty |
| Token.IssuersDiffer | src/Authentification/token.ts:7-22 | access tokens carry `_id` as a string, with `ACCESS_TOKEN_SECRET`, for `18000s`; refresh tokens carry `id`, with `REFRESH_TOKEN_SECRET`, for `5 days` |
| Token.AccessTokenRoundTrip | src/Authentification/token.ts:7-36 | an access token presented as `Bearer <token>` and decoded under the access secret yields the user's id under `_id` |
| Token.RefreshTokenRejectedAsAccess | src/Authentification/token.ts:16-38 | with distinct secrets, a refresh token is refused by `decode_token` under the access secret |
| Token.AccessTokenRejectedAsRefresh | src/Authentification/token.ts:5-38 | with distinct secrets, an access token is refused by `decode_token` under the refresh secret |
| Registration.FindByEmail | src/Authentification/routes.ts:20-22 | `findOne({email})` finds a stored user with that email, and finds nothing only when no user has it |
| Registration.CheckEmailExist | src/Authentification/routes.ts:19-26 | throws `{error:{msg:"Email already exist"}}` if and only if some stored user has the email |
| Registration.AppendKeepsEmailsUnique | src/Authentification/routes.ts:43-44 | saving a user whose email passed the check keeps all emails unique |
| Registration.TokenResponse | src/Authentification/routes.ts:45-53 | 201 with the refresh token, the access token, `expires_in: "1800s"` and `token_type: "Bearer"` exactly when both tokens can be signed; otherwise 500 |
| Registration.TokensIssuedWithSecrets | src/Authentification/routes.ts:45-50 | with both secrets configured, registration answers 201 with a Bearer envelope of lifetime "1800s" |
| Registration.UserStore.Register | src/Authentification/routes.ts:28-55 | a validation error gives 400 and nothing else; a known email gives 500 "Email already exist" and leaves the collection unchanged; a failed save gives 500 and stores nothing; otherwise exactly one user is appended with the request's username and email and `crypt(password)` as password, followed by the token response; unique emails stay unique and ids canonical |
| Sorting.Compare | src/AnimalsPost/routes.ts:179-187 | under `oldest` the comparator puts `a` first exactly when it is not newer; under `mostrecent`, absent or any other value exactly when it is not older |
| Sorting.CompareAntisymmetric | src/Animals/routes.ts:40-48 | swapping the two documents negates the comparator |
| Sorting.SortedMeaning | src/AnimalsPost/routes.ts:207-215 | sorted by the comparator means non-decreasing creation dates under `oldest` and non-increasing ones otherwise |
| Sorting.Sort | src/Animals/routes.ts:40 | the in-place sort leaves the array sorted by the comparator and a permutation of what it held |
| Animals.AnimalStore.Create | src/Animals/routes.ts:8-24 | 400 on a validation error; 500 and nothing stored when the save fails; otherwise 201 and exactly one animal appended, with the body's breeds and category |
| Animals.AnimalStore.List | src/Animals/routes.ts:26-49 | 400 on a validation error; otherwise 200 with a permutation of all stored animals, sorted by the comparator |
| AnimalPosts.FindAnimal | src/AnimalsPost/routes.ts:13-15 | `findOne` returns the first animal with the id, and nothing only when no animal has it |
| AnimalPosts.IsValidAnimalId | src/AnimalsPost/routes.ts:11-23 | true exactly when the text is an object id and a stored animal has it |
| AnimalPosts.IsValidBreed | src/AnimalsPost/routes.ts:25-37 | true exactly when the animal found under the id lists the breed; it implies a valid animal id |
| AnimalPosts.ValidBreedMeaning | src/AnimalsPost/routes.ts:27-30 | with unique animal ids, the breed check holds exactly when the animal with that id lists the breed |
| AnimalPosts.PostsBy | src/AnimalsPost/routes.ts:176-178 | `find({authorId})` keeps exactly the posts of that author, each as often as it is stored |
| AnimalPosts.FirstMatch | src/AnimalsPost/routes.ts:93-96 | the first post matching both post id and author id, or nothing when no post matches both |
| AnimalPosts.RemoveMatchOnly | src/AnimalsPost/routes.ts:93-99 | with unique ids, `deleteOne` leaves exactly the posts that do not match id and author, one fewer, with ids still unique |
| AnimalPosts.PatchModifies | src/AnimalsPost/routes.ts:127-146 | the cast update leaves a post unmodified exactly when every written field already holds its value, `updateDate` included and ids compared after the cast; a `null` id field sets that id to `null`; `_id` and `creationDate` never change; canonical or `null` ids stay so |
| AnimalPosts.PickId | src/AnimalsPost/routes.ts:127-134 | an absent id field keeps the stored value, `null` writes `null`, and text writes its cast, a canonical id |
| AnimalPosts.NullAuthorOrphaned | src/AnimalsPost/routes.ts:93-96 | a post whose author is `null` matches no caller's filter and is in no caller's `find({authorId})` over any collection |
| AnimalPosts.CreatedPostIsDeletable | src/AnimalsPost/routes.ts:93-100 | a post appended under a fresh canonical id is the one a delete by that id's text and its author matches, and removing it restores the collection |
| AnimalPosts.CreateThenDelete | src/AnimalsPost/routes.ts:66-107 | a successful create followed by a delete of the new post by its author answers 201, then 200, and leaves the collection as it was |
| AnimalPosts.PostStore.Create | src/AnimalsPost/routes.ts:39-81 | 400 `Invalid animalId : <id>` before the breed is looked at; then 400 `Invalid breed : <breed>`; 500 and nothing saved when the save fails; otherwise 201 and one post appended, authored by the caller, with the body's fields |
| AnimalPosts.PostStore.Delete | src/AnimalsPost/routes.ts:83-111 | 500 on text that is no object id; 404 "Animal post not found." and nothing removed when no post matches both id and caller; otherwise 200 and exactly the matching post removed |
| AnimalPosts.PostStore.Update | src/AnimalsPost/routes.ts:113-156 | 500 and nothing changed when the path id, or body `animalId`/`authorId` text, do not cast to object ids; a body `null` is written as `null`; 404 "Unable to find this post." when nothing matches id and caller; 500 "No changes have been made." when the write changes nothing; otherwise only the matched post is rewritten with the cast values, and the answer is 200 with it as re-read, or `null` |
| AnimalPosts.PostStore.MyPosts | src/AnimalsPost/routes.ts:158-188 | 200 with exactly the caller's posts, in the comparator's order |
| AnimalPosts.PostStore.AllPosts | src/AnimalsPost/routes.ts:190-216 | 200 with a permutation of every post, in the comparator's order, with no caller at all |

## Left out

- Sorting.Sort: states sortedness and permutation, not stability; the
  order among posts with equal creation dates is the engine's.
- jsonwebtoken: `sign`, `verify` and `decode` are parameters. The clock
  that decides expiry is inside `verify`. The `iat`/`exp` claims and the
  token header are not modelled.
- jsonwebtoken failures: the real `verify` throws its own error instead of
  returning false. That error, and the one it throws for an undefined key,
  both appear here as the "Your Bearer token is invalid" failure.
- bcrypt (`Crypt.crypt_password`, `compare_password`): a parameter. Salt,
  cost factor and constant-time comparison are foreign code.
- A failure of `crypt_password` itself is not modelled. It happens outside
  the handler's `try`, so it would be an unhandled rejection.
- `utils.AUTHORIZATION.cannotUseUserRoutes` and `getUserByToken` are not
  part of this model. `src/utils.ts` defines only `STATUS` and
  `VALIDATION`, and no user record has a role. The caller's id is a
  parameter, and the gate's own rejections are left out.
- The login route is not part of this model.
- express-validator rules are not modelled: lengths, `isEmail`,
  `isNumeric`, and the `sorting` pattern `\b(?:oldest|mostrecent)\b`.
  Their verdict is the `validationFailed` parameter. On
  `GET /api/v1/animals` the `sorting` value is not optional, so a request
  without it fails validation.
- MongoDB is modelled as an in-memory sequence. Connections and
  concurrent requests are out of scope. This includes the race between
  `check_email_exist` and `save`, and the two separate animal lookups
  during post creation.
- Store errors other than a failed `save` (on registration and on the
  two create routes) and a failed cast of ids are not modelled.
- AnimalPosts.PostStore.Delete: the route also passes
  `{...req.body, updateDate}` to `deleteOne` as its options argument.
  The model takes no request body, so options a body could set there
  are not modelled.
- `age` is an `int` in the post record, the create request and the
  update body. The source stores a JavaScript number, and `isNumeric`
  also lets through text such as `"2.5"`. Fractional ages and Mongoose's
  cast of that text are not modelled.
- ObjectIds.Parse: the 12-byte string form that `ObjectId` also accepts is
  not modelled; only the 24-hex-digit form is.
- Updates that write `_id`, `likes`, `dislikes`, `creationDate` or
  fields outside the schema are not modelled. The update body covers
  name, breed, age, image, animalId and authorId.
- Update bodies that carry MongoDB update operators (`$set`, `$unset`,
  `$inc`, …) are not modelled. Mongoose keeps such keys beside the `$set`
  of the plain fields, so `{"$set": {"name": null}}` slips past the name
  validator and `{"$inc": {"age": 1}}` takes effect.
- Bootstrap is not modelled: `src/index.ts`, `dotenv`, and the
  `console.log` calls, including the secret logged at
  `src/Authentification/token.ts:6`.
