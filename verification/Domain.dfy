/** Entities and errors shared by the repositories and the use cases. */
module Domain {
  import opened Uuids

  type Id = Uuid

  datatype Error =
    | ErrUserNotFound
    | ErrEmailTaken
    | ErrUsernameTaken
    | ErrInvalidCredentials
    | ErrChatNotFound
    | ErrNotChatMember
    | ErrAlreadyChatMember
    | ErrInsufficientRights
    | ErrCannotRemoveOwner
    | ErrMessageNotFound
    | ErrNotMessageAuthor
    | ErrMessageDeleted
    | ErrForbidden
    | ErrValidation
    | ErrInternal
    | ErrStorage     // whatever the database driver reports: a lost connection, a violated constraint

  datatype Result<+T> = Ok(value: T) | Err(error: Error)
  {
    predicate IsFailure() { Err? }

    function PropagateFailure<U>(): Result<U>
      requires Err?
    {
      Err(error)
    }

    function Extract(): T
      requires Ok?
    {
      value
    }
  }

  datatype ChatType = Direct | Group

  datatype Role = Owner | Admin | Member

  predicate CanManageMembers(r: Role) { r == Owner || r == Admin }

  datatype Chat = Chat(
    id: Id, kind: ChatType, name: string, avatarUrl: string, description: string,
    createdBy: Id, createdAt: int, updatedAt: int)

  datatype Membership = Membership(role: Role, joinedAt: int)

  /** A member as handed to the use cases; `user` is the joined user, when there is one. */
  datatype ChatMember = ChatMember(chat: Id, user: Id, membership: Membership, joined: bool)
}
