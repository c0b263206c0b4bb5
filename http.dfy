/** The record shapes of the three collections and the responses the
    route handlers send (status codes from `utils.STATUS`). */
module Http {
  import opened Wrappers
  import opened ObjectIds

  const Success := 200
  const Created := 201
  const BadRequest := 400
  const NotFound := 404
  const InternError := 500

  /** Milliseconds since the epoch, as `+date` yields them. */
  type Timestamp = int

  datatype User = User(
    id: ObjectId,
    username: string,
    email: string,
    password: string,
    creationDate: Timestamp,
    updateDate: Option<Timestamp>)

  datatype Animal = Animal(
    id: ObjectId,
    category: string,
    breeds: seq<string>,
    creationDate: Timestamp,
    updateDate: Option<Timestamp>)

  datatype AnimalPost = AnimalPost(
    id: ObjectId,
    authorId: Option<ObjectId>,   // None: JSON null written by an update
    animalId: Option<ObjectId>,
    name: string,
    breed: string,
    age: int,
    image: string,
    likes: seq<ObjectId>,
    dislikes: seq<ObjectId>,
    creationDate: Timestamp,
    updateDate: Option<Timestamp>)

  datatype Body =
    | ErrorMsg(msg: string)       // { error: { msg } }
    | ErrMsg(msg: string)         // { err: { msg } }
    | ValidationErrors            // { errors: [...] } from express-validator
    | Tokens(refresh_token: string, access_token: string, expires_in: string, token_type: string)
    | AnimalDoc(animal: Animal)
    | PostDoc(post: AnimalPost)
    | AnimalList(animals: seq<Animal>)
    | PostList(posts: seq<AnimalPost>)
    | NullDoc                     // `res.send(null)`
    | Thrown                      // an error raised by a library, sent as caught
    | Empty

  datatype Response = Response(status: int, body: Body)

  /** `utils.VALIDATION.isError` when the validators reported something. */
  const ValidationFailed := Response(BadRequest, ValidationErrors)
}
