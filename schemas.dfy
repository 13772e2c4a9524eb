/** The request bodies of app/schemas.py that the modelled handlers read, reduced to their fields.
    Validation (`EmailStr`) belongs to pydantic and is not modelled. */
module Schemas {
  import opened Wrappers
  import opened Models

  /** `UserCreate`. */
  datatype UserCreate = UserCreate(email: string, username: string, password: string)

  /** `UserLogin`: the username is optional and unused. */
  datatype UserLogin = UserLogin(email: string, password: string)

  /** `ImageCreate`. It declares no `id`. */
  datatype ImageCreate = ImageCreate(title: string, description: Option<string>, imagePath: string)

  /** `MessageCreate`. It declares no `sender_id`. */
  datatype MessageCreate = MessageCreate(content: string, chatId: int)

  /** `ChatCreate`: it names an album, not an image. */
  datatype ChatCreate = ChatCreate(albumId: int, createdAt: Timestamp)
}
