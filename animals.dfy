/** src/Animals/routes.ts: `POST /api/v1/animals` and
    `GET /api/v1/animals` over the animal collection. */
module Animals {
  import opened Wrappers
  import opened ObjectIds
  import opened Http
  import opened Sorting

  datatype CreateAnimalRequest = CreateAnimalRequest(breeds: seq<string>, category: string)

  function AnimalDate(a: Animal): Timestamp {
    a.creationDate
  }

  predicate AnimalIdsUnique(animals: seq<Animal>) {
    forall i, j :: 0 <= i < j < |animals| ==> animals[i].id != animals[j].id
  }

  /** The `Animal` collection. */
  class AnimalStore {
    var animals: seq<Animal>

    ghost predicate Valid()
      reads this
    {
      AnimalIdsUnique(animals) && forall i :: 0 <= i < |animals| ==> IsCanonical(animals[i].id)
    }

    constructor ()
      ensures Valid() && animals == []
    {
      animals := [];
    }

    /** `POST /api/v1/animals`: stores the body's breeds and category.
        `saveOk` is whether the store accepted `animal.save()`; `newId`
        and `now` are the `_id` and `Date.now` default it assigns. */
    method Create(req: CreateAnimalRequest, validationFailed: bool, saveOk: bool,
                  newId: ObjectId, now: Timestamp) returns (res: Response)
      requires Valid()
      requires IsCanonical(newId)
      requires forall i :: 0 <= i < |animals| ==> animals[i].id != newId
      modifies this
      ensures Valid()
      ensures validationFailed ==> res == ValidationFailed && animals == old(animals)
      ensures !validationFailed && !saveOk ==> res == Response(InternError, Thrown) && animals == old(animals)
      ensures !validationFailed && saveOk ==>
                var animal := Animal(newId, req.category, req.breeds, now, None);
                animals == old(animals) + [animal] && res == Response(Created, AnimalDoc(animal))
    {
      if validationFailed {
        return ValidationFailed;
      }
      var animal := Animal(newId, req.category, req.breeds, now, None);
      if !saveOk {
        return Response(InternError, Thrown);
      }
      animals := animals + [animal];
      res := Response(Created, AnimalDoc(animal));
    }

    /** `GET /api/v1/animals`: every stored animal, ordered by the
        shared comparator. */
    method List(sorting: Option<string>, validationFailed: bool) returns (res: Response)
      ensures validationFailed ==> res == ValidationFailed
      ensures !validationFailed ==> res.status == Success && res.body.AnimalList?
      ensures !validationFailed ==> multiset(res.body.animals) == multiset(animals)
      ensures !validationFailed ==> Sorted(res.body.animals, AnimalDate, sorting)
    {
      if validationFailed {
        return ValidationFailed;
      }
      var found := ToArray(animals);
      Sort(found, AnimalDate, sorting);
      res := Response(Success, AnimalList(found[..]));
    }
  }
}
