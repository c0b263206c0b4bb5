/** src/AnimalsPost/routes.ts: the create, delete, update and listing
    routes of `/api/v1/animal_post` over the post collection. The caller's
    id is the `_id` of the user the authorization gate resolved. */
module AnimalPosts {
  import opened Wrappers
  import opened ObjectIds
  import opened Http
  import opened Sorting
  import opened Animals

  // ---------------------------------------------------------------
  // Checks against the animal collection
  // ---------------------------------------------------------------

  /** `AnimalModel.findOne({ _id: id })`: the first animal with that id. */
  function FindAnimal(animals: seq<Animal>, id: ObjectId): (r: Option<Animal>)
    ensures r.None? <==> forall i :: 0 <= i < |animals| ==> animals[i].id != id
    ensures r.Some? ==> exists i :: 0 <= i < |animals| && animals[i] == r.value && r.value.id == id
                                    && forall j :: 0 <= j < i ==> animals[j].id != id
  {
    if animals == [] then None
    else if animals[0].id == id then Some(animals[0])
    else
      var r := FindAnimal(animals[1..], id);
      if r.Some? then
        ghost var i :| 0 <= i < |animals[1..]| && animals[1..][i] == r.value && r.value.id == id
                       && forall j :: 0 <= j < i ==> animals[1..][j].id != id;
        assert animals[i + 1] == r.value;
        r
      else r
  }

  /** `isValidAnimalId(animalId)`: an animal with that id exists; text
      that is no object id makes the lookup throw, which reads as false. */
  function IsValidAnimalId(animals: seq<Animal>, animalId: string): (r: bool)
    ensures r <==> Parse(animalId).Some?
                   && exists i :: 0 <= i < |animals| && animals[i].id == Parse(animalId).value
  {
    match Parse(animalId)
    case None => false
    case Some(id) => FindAnimal(animals, id).Some?
  }

  /** `isValidBreed(breed, animalId)`: the animal found under that id
      lists the breed. */
  function IsValidBreed(animals: seq<Animal>, breed: string, animalId: string): (r: bool)
    ensures r ==> IsValidAnimalId(animals, animalId)
    ensures r <==> Parse(animalId).Some? && FindAnimal(animals, Parse(animalId).value).Some?
                   && breed in FindAnimal(animals, Parse(animalId).value).value.breeds
  {
    match Parse(animalId)
    case None => false
    case Some(id) =>
      match FindAnimal(animals, id)
      case None => false
      case Some(animal) => breed in animal.breeds
  }

  /** With unique animal ids the breed check asks exactly whether the
      animal named by the id lists the breed. */
  lemma ValidBreedMeaning(animals: seq<Animal>, breed: string, animalId: string)
    requires AnimalIdsUnique(animals)
    ensures IsValidBreed(animals, breed, animalId)
        <==> (Parse(animalId).Some?
              && exists i :: 0 <= i < |animals| && animals[i].id == Parse(animalId).value
                                                && breed in animals[i].breeds)
  {
    if Parse(animalId).Some? {
      var id := Parse(animalId).value;
      var r := FindAnimal(animals, id);
      if i :| 0 <= i < |animals| && animals[i].id == id && breed in animals[i].breeds {
        var k :| 0 <= k < |animals| && animals[k] == r.value && r.value.id == id;
        assert k == i;
      }
    }
  }

  // ---------------------------------------------------------------
  // Filters
  // ---------------------------------------------------------------

  function PostDate(p: AnimalPost): Timestamp {
    p.creationDate
  }

  /** The filter `{ _id: id, authorId: author }`. */
  predicate Matches(p: AnimalPost, id: ObjectId, author: ObjectId) {
    p.id == id && p.authorId == Some(author)
  }

  /** `AnimalPostModel.find({ authorId: author })`: the author's posts,
      each as often as it is stored, in stored order. */
  function PostsBy(posts: seq<AnimalPost>, author: ObjectId): (r: seq<AnimalPost>)
    ensures forall p :: multiset(r)[p] == if p.authorId == Some(author) then multiset(posts)[p] else 0
    ensures forall i :: 0 <= i < |r| ==> r[i].authorId == Some(author)
  {
    if posts == [] then []
    else
      assert posts == [posts[0]] + posts[1..];
      if posts[0].authorId == Some(author) then [posts[0]] + PostsBy(posts[1..], author)
      else PostsBy(posts[1..], author)
  }

  /** The position `deleteOne`, `updateOne` and `findOne` act on: the
      first post matching both id and author. */
  function FirstMatch(posts: seq<AnimalPost>, id: ObjectId, author: ObjectId): (r: Option<nat>)
    ensures r.None? <==> forall i :: 0 <= i < |posts| ==> !Matches(posts[i], id, author)
    ensures r.Some? ==> r.value < |posts| && Matches(posts[r.value], id, author)
                        && forall j :: 0 <= j < r.value ==> !Matches(posts[j], id, author)
  {
    if posts == [] then None
    else if Matches(posts[0], id, author) then Some(0)
    else
      match FirstMatch(posts[1..], id, author)
      case None => None
      case Some(k) => Some(k + 1)
  }

  predicate PostIdsUnique(posts: seq<AnimalPost>) {
    forall i, j :: 0 <= i < j < |posts| ==> posts[i].id != posts[j].id
  }

  function RemoveAt(posts: seq<AnimalPost>, i: nat): seq<AnimalPost>
    requires i < |posts|
  {
    posts[..i] + posts[i + 1..]
  }

  /** Where each post lands once the one at `k` is removed. */
  lemma RemoveAtIndices(posts: seq<AnimalPost>, k: nat)
    requires k < |posts|
    ensures |RemoveAt(posts, k)| == |posts| - 1
    ensures forall i :: 0 <= i < k ==> RemoveAt(posts, k)[i] == posts[i]
    ensures forall i :: k <= i < |posts| - 1 ==> RemoveAt(posts, k)[i] == posts[i + 1]
  {
  }

  /** Deleting the matched post removes that post and only it: with
      unique ids, what remains is every post that does not match. */
  lemma RemoveMatchOnly(posts: seq<AnimalPost>, id: ObjectId, author: ObjectId)
    requires PostIdsUnique(posts)
    requires FirstMatch(posts, id, author).Some?
    ensures var rest := RemoveAt(posts, FirstMatch(posts, id, author).value);
      |rest| == |posts| - 1
      && (forall p :: p in rest <==> p in posts && !Matches(p, id, author))
      && PostIdsUnique(rest)
  {
    var k := FirstMatch(posts, id, author).value;
    var rest := RemoveAt(posts, k);
    RemoveAtIndices(posts, k);
    forall p | p in rest ensures p in posts && !Matches(p, id, author) {
      var i :| 0 <= i < |rest| && rest[i] == p;
      var j := if i < k then i else i + 1;
      assert posts[j] == p && j != k;
      assert posts[j].id != posts[k].id;
    }
    forall p | p in posts && !Matches(p, id, author) ensures p in rest {
      var i :| 0 <= i < |posts| && posts[i] == p;
      var j := if i < k then i else i - 1;
      assert rest[j] == p;
    }
    forall i, j | 0 <= i < j < |rest| ensures rest[i].id != rest[j].id {
      var i' := if i < k then i else i + 1;
      var j' := if j < k then j else j + 1;
      assert rest[i] == posts[i'] && rest[j] == posts[j'] && i' < j';
    }
  }

  // ---------------------------------------------------------------
  // Update
  // ---------------------------------------------------------------

  /** An id field of a JSON body: left out, `null`, or text. */
  datatype IdField = Absent | Null | Text(text: string)

  /** The fields of `req.body` spread into the update; `None` is a field
      the body leaves out. `animalId` and `authorId` are cast by Mongoose
      before the update runs: text to an object id, `null` left as is. */
  datatype PostPatch = PostPatch(
    name: Option<string>,
    breed: Option<string>,
    age: Option<int>,
    image: Option<string>,
    animalId: IdField,
    authorId: IdField)

  /** The cast of an id field succeeds: absent, `null`, or object id text. */
  predicate CastsToId(given: IdField) {
    given.Text? ==> Parse(given.text).Some?
  }

  /** Mongoose's cast of the update against the schema does not throw. */
  predicate Castable(patch: PostPatch) {
    CastsToId(patch.animalId) && CastsToId(patch.authorId)
  }

  function Pick<T>(given: Option<T>, current: T): T {
    if given.Some? then given.value else current
  }

  /** The cast value of an id field, or the stored one when absent. */
  function PickId(given: IdField, current: Option<ObjectId>): (r: Option<ObjectId>)
    requires CastsToId(given)
    ensures given.Absent? ==> r == current
    ensures given.Null? ==> r.None?
    ensures given.Text? ==> r == Parse(given.text) && IsCanonical(r.value)
    ensures NullOrCanonical(current) ==> NullOrCanonical(r)
  {
    match given
    case Absent => current
    case Null => None
    case Text(s) => Some(Parse(s).value)
  }

  /** `{ ...req.body, updateDate: new Date() }`, once cast, applied to a post. */
  function ApplyPatch(p: AnimalPost, patch: PostPatch, now: Timestamp): AnimalPost
    requires Castable(patch)
  {
    p.(name := Pick(patch.name, p.name),
       breed := Pick(patch.breed, p.breed),
       age := Pick(patch.age, p.age),
       image := Pick(patch.image, p.image),
       animalId := PickId(patch.animalId, p.animalId),
       authorId := PickId(patch.authorId, p.authorId),
       updateDate := Some(now))
  }

  /** `modifiedCount` is 0 only when the update rewrites a post with what
      it already holds, `updateDate` and the cast ids included: once the
      clock has moved past the last update, every matched post counts as
      modified, and an id given in another letter case is no change. */
  lemma PatchModifies(p: AnimalPost, patch: PostPatch, now: Timestamp)
    requires Castable(patch)
    ensures ApplyPatch(p, patch, now) == p
        <==> p.updateDate == Some(now)
             && Pick(patch.name, p.name) == p.name && Pick(patch.breed, p.breed) == p.breed
             && Pick(patch.age, p.age) == p.age && Pick(patch.image, p.image) == p.image
             && (patch.animalId.Null? ==> p.animalId.None?)
             && (patch.animalId.Text? ==> Parse(patch.animalId.text) == p.animalId)
             && (patch.authorId.Null? ==> p.authorId.None?)
             && (patch.authorId.Text? ==> Parse(patch.authorId.text) == p.authorId)
    ensures ApplyPatch(p, patch, now).id == p.id
    ensures ApplyPatch(p, patch, now).creationDate == p.creationDate
    ensures PostCanonical(p) ==> PostCanonical(ApplyPatch(p, patch, now))
  {
  }

  predicate NullOrCanonical(id: Option<ObjectId>) {
    id.Some? ==> IsCanonical(id.value)
  }

  /** A post whose ids are all in the form the store hands out, or, for
      the author and animal, `null` as an update may write. */
  predicate PostCanonical(p: AnimalPost) {
    IsCanonical(p.id) && NullOrCanonical(p.authorId) && NullOrCanonical(p.animalId)
  }

  /** A post whose author an update set to `null` is matched by no
      caller's delete or update, and listed by no caller's `my_posts`. */
  lemma NullAuthorOrphaned(p: AnimalPost, id: ObjectId, caller: ObjectId)
    requires p.authorId.None?
    ensures !Matches(p, id, caller)
    ensures forall posts: seq<AnimalPost> :: p !in PostsBy(posts, caller)
  {
  }

  /** A post just appended under a fresh canonical id is what a delete
      by that id's text and its author finds and removes, and removing
      it gives back the collection as it was. */
  lemma CreatedPostIsDeletable(posts: seq<AnimalPost>, post: AnimalPost)
    requires forall i :: 0 <= i < |posts| ==> posts[i].id != post.id
    requires IsCanonical(post.id) && post.authorId.Some?
    ensures Parse(post.id) == Some(post.id)
    ensures FirstMatch(posts + [post], post.id, post.authorId.value) == Some(|posts|)
    ensures RemoveAt(posts + [post], |posts|) == posts
  {
    ParseCanonical(post.id);
    FirstMatchAppended(posts, post);
    assert (posts + [post])[..|posts|] == posts;
  }

  /** Only the appended post carries its fresh id. */
  lemma FirstMatchAppended(posts: seq<AnimalPost>, post: AnimalPost)
    requires forall i :: 0 <= i < |posts| ==> posts[i].id != post.id
    requires post.authorId.Some?
    ensures FirstMatch(posts + [post], post.id, post.authorId.value) == Some(|posts|)
  {
    var all := posts + [post];
    assert Matches(all[|posts|], post.id, post.authorId.value);
    assert forall i :: 0 <= i < |posts| ==> all[i] == posts[i];
  }

  // ---------------------------------------------------------------
  // The routes
  // ---------------------------------------------------------------

  const AnimalPostNotFound := "Animal post not found."
  const UnableToFind := "Unable to find this post."
  const NoChanges := "No changes have been made."

  datatype CreatePostRequest = CreatePostRequest(
    name: string, breed: string, age: int, image: string, animalId: string)

  /** The `AnimalPost` collection. */
  class PostStore {
    var posts: seq<AnimalPost>

    ghost predicate Valid()
      reads this
    {
      PostIdsUnique(posts) && forall i :: 0 <= i < |posts| ==> PostCanonical(posts[i])
    }

    constructor ()
      ensures Valid() && posts == []
    {
      posts := [];
    }

    /** `POST /api/v1/animal_post`: the animal id must name a stored
        animal, then the breed must be one of its breeds; the post is
        authored by the caller. `saveOk`, `newId` and `now` come from
        the store. */
    method Create(req: CreatePostRequest, caller: ObjectId, validationFailed: bool,
                  catalogue: AnimalStore, saveOk: bool, newId: ObjectId, now: Timestamp)
      returns (res: Response)
      requires Valid()
      requires IsCanonical(newId) && IsCanonical(caller)
      requires forall i :: 0 <= i < |posts| ==> posts[i].id != newId
      modifies this
      ensures Valid()
      ensures validationFailed ==> res == ValidationFailed && posts == old(posts)
      ensures !validationFailed && !IsValidAnimalId(catalogue.animals, req.animalId) ==>
                res == Response(BadRequest, ErrMsg("Invalid animalId : " + req.animalId))
                && posts == old(posts)
      ensures !validationFailed && IsValidAnimalId(catalogue.animals, req.animalId)
              && !IsValidBreed(catalogue.animals, req.breed, req.animalId) ==>
                res == Response(BadRequest, ErrMsg("Invalid breed : " + req.breed))
                && posts == old(posts)
      ensures !validationFailed && IsValidBreed(catalogue.animals, req.breed, req.animalId) && !saveOk ==>
                res == Response(InternError, Thrown) && posts == old(posts)
      ensures !validationFailed && IsValidBreed(catalogue.animals, req.breed, req.animalId) && saveOk ==>
                var post := AnimalPost(newId, Some(caller), Parse(req.animalId), req.name, req.breed,
                                       req.age, req.image, [], [], now, None);
                posts == old(posts) + [post] && res == Response(Created, PostDoc(post))
    {
      if validationFailed {
        return ValidationFailed;
      }
      if !IsValidAnimalId(catalogue.animals, req.animalId) {
        return Response(BadRequest, ErrMsg("Invalid animalId : " + req.animalId));
      }
      if !IsValidBreed(catalogue.animals, req.breed, req.animalId) {
        return Response(BadRequest, ErrMsg("Invalid breed : " + req.breed));
      }
      var post := AnimalPost(newId, Some(caller), Parse(req.animalId), req.name, req.breed,
                             req.age, req.image, [], [], now, None);
      if !saveOk {
        return Response(InternError, Thrown);
      }
      posts := posts + [post];
      res := Response(Created, PostDoc(post));
    }

    /** `DELETE /api/v1/animal_post/:id`: removes the post with that id
        only if the caller wrote it. Text that is no object id makes
        `new ObjectId` throw, answered with 500. */
    method Delete(idText: string, caller: ObjectId, validationFailed: bool) returns (res: Response)
      requires Valid()
      modifies this
      ensures Valid()
      ensures validationFailed ==> res == ValidationFailed && posts == old(posts)
      ensures !validationFailed && Parse(idText).None? ==>
                res == Response(InternError, Thrown) && posts == old(posts)
      ensures !validationFailed && Parse(idText).Some?
              && FirstMatch(old(posts), Parse(idText).value, caller).None? ==>
                res == Response(NotFound, ErrMsg(AnimalPostNotFound)) && posts == old(posts)
      ensures !validationFailed && Parse(idText).Some?
              && FirstMatch(old(posts), Parse(idText).value, caller).Some? ==>
                res == Response(Success, Empty)
                && posts == RemoveAt(old(posts), FirstMatch(old(posts), Parse(idText).value, caller).value)
                && forall p :: p in posts <==> p in old(posts) && !Matches(p, Parse(idText).value, caller)
    {
      if validationFailed {
        return ValidationFailed;
      }
      var id := Parse(idText);
      if id.None? {
        return Response(InternError, Thrown);
      }
      var k := FirstMatch(posts, id.value, caller);
      if k.None? {
        return Response(NotFound, ErrMsg(AnimalPostNotFound));
      }
      RemoveMatchOnly(posts, id.value, caller);
      posts := RemoveAt(posts, k.value);
      res := Response(Success, Empty);
    }

    /** `PUT /api/v1/animal_post/:id`: writes the body's fields and a new
        `updateDate` into the caller's post with that id, then answers
        with that post as a fresh `findOne` sees it. Id text that does not
        cast (the path's or the body's `animalId` or `authorId`) throws
        before anything is written, answered with 500. */
    method Update(idText: string, caller: ObjectId, patch: PostPatch, validationFailed: bool,
                  now: Timestamp) returns (res: Response)
      requires Valid()
      modifies this
      ensures Valid()
      ensures validationFailed ==> res == ValidationFailed && posts == old(posts)
      ensures !validationFailed && (Parse(idText).None? || !Castable(patch)) ==>
                res == Response(InternError, Thrown) && posts == old(posts)
      ensures !validationFailed && Parse(idText).Some? && Castable(patch)
              && FirstMatch(old(posts), Parse(idText).value, caller).None? ==>
                res == Response(NotFound, ErrMsg(UnableToFind)) && posts == old(posts)
      ensures !validationFailed && Parse(idText).Some? && Castable(patch)
              && FirstMatch(old(posts), Parse(idText).value, caller).Some? ==>
                var k := FirstMatch(old(posts), Parse(idText).value, caller).value;
                var updated := ApplyPatch(old(posts)[k], patch, now);
                (updated == old(posts)[k] ==>
                   res == Response(InternError, ErrMsg(NoChanges)) && posts == old(posts))
                && (updated != old(posts)[k] ==>
                   posts == old(posts)[k := updated]
                   && res.status == Success
                   && res.body == if Matches(updated, Parse(idText).value, caller)
                                  then PostDoc(updated) else NullDoc)
    {
      if validationFailed {
        return ValidationFailed;
      }
      var id := Parse(idText);
      if id.None? || !Castable(patch) {
        return Response(InternError, Thrown);
      }
      var k := FirstMatch(posts, id.value, caller);
      if k.None? {
        return Response(NotFound, ErrMsg(UnableToFind));
      }
      var updated := ApplyPatch(posts[k.value], patch, now);
      if updated == posts[k.value] {
        return Response(InternError, ErrMsg(NoChanges));
      }
      ghost var before := posts;
      posts := posts[k.value := updated];
      forall j | 0 <= j < |posts| && j != k.value ensures !Matches(posts[j], id.value, caller) {
        assert posts[j] == before[j] && before[j].id != before[k.value].id;
      }
      var reread := FirstMatch(posts, id.value, caller);
      assert posts[k.value] == updated;
      if reread.Some? {
        assert reread.value == k.value;
        res := Response(Success, PostDoc(posts[reread.value]));
      } else {
        assert !Matches(posts[k.value], id.value, caller);
        res := Response(Success, NullDoc);
      }
    }

    /** `GET /api/v1/animal_post/my_posts`: the caller's posts, ordered
        by the shared comparator. */
    method MyPosts(caller: ObjectId, sorting: Option<string>, validationFailed: bool) returns (res: Response)
      ensures validationFailed ==> res == ValidationFailed
      ensures !validationFailed ==> res.status == Success && res.body.PostList?
      ensures !validationFailed ==> forall p :: multiset(res.body.posts)[p]
                                      == if p.authorId == Some(caller) then multiset(posts)[p] else 0
      ensures !validationFailed ==> Sorted(res.body.posts, PostDate, sorting)
    {
      if validationFailed {
        return ValidationFailed;
      }
      var found := ToArray(PostsBy(posts, caller));
      Sort(found, PostDate, sorting);
      res := Response(Success, PostList(found[..]));
    }

    /** `GET /api/v1/animal_post/all_posts`, open to guests: every post,
        ordered by the shared comparator. */
    method AllPosts(sorting: Option<string>, validationFailed: bool) returns (res: Response)
      ensures validationFailed ==> res == ValidationFailed
      ensures !validationFailed ==> res.status == Success && res.body.PostList?
      ensures !validationFailed ==> multiset(res.body.posts) == multiset(posts)
      ensures !validationFailed ==> Sorted(res.body.posts, PostDate, sorting)
    {
      if validationFailed {
        return ValidationFailed;
      }
      var found := ToArray(posts);
      Sort(found, PostDate, sorting);
      res := Response(Success, PostList(found[..]));
    }
  }

  /** A client of the two routes: a post created by the caller, under a
      catalogued animal and breed, is removed again by a delete with its
      own id, and the collection is back where it started. */
  method CreateThenDelete(store: PostStore, catalogue: AnimalStore, req: CreatePostRequest,
                          caller: ObjectId, newId: ObjectId, now: Timestamp)
    returns (created: Response, deleted: Response)
    requires store.Valid()
    requires IsCanonical(newId) && IsCanonical(caller)
    requires forall i :: 0 <= i < |store.posts| ==> store.posts[i].id != newId
    requires IsValidBreed(catalogue.animals, req.breed, req.animalId)
    modifies store
    ensures store.Valid() && store.posts == old(store.posts)
    ensures created.status == Created && deleted == Response(Success, Empty)
  {
    created := store.Create(req, caller, false, catalogue, true, newId, now);
    ghost var post := created.body.post;
    CreatedPostIsDeletable(old(store.posts), post);
    deleted := store.Delete(newId, caller, false);
  }
}
