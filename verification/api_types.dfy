/** The user record the client receives from `GET /users`. */
module ApiTypes {

  /** A user as the admin pages see it: `messages` holds the ids of the user's
      stored messages. */
  datatype UserView = UserView(id: string, name: string, email: string, gender: string, messages: seq<string>)
}
