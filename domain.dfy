/** Constants, record shapes and business errors shared by the whole backend
    (domain/constants.ts, domain/types.ts, domain/errors.ts). */
module Domain {

  /** User and socket ids are opaque strings (UUIDs and socket.io ids). */
  type UserId = string
  type SocketId = string

  /** Row ids of the sessions, invites and friend_requests tables. A row's id
      is its position in its table, so ids also record creation order. */
  type SessionId = nat
  type InviteId = nat
  type RequestId = nat

  /** A value of `now()` / `new Date().toISOString()`; only stored and compared, never computed on. */
  type Time = nat

  /** Latitude, longitude and accuracy are carried through, never computed on. */
  type Coordinate = real

  datatype Option<T> = None | Some(value: T)

  datatype Result<T, E> = Ok(value: T) | Err(error: E)

  /** SessionType: "public" | "private". */
  datatype SessionType = Public | Private

  /** SessionEndReason: why a session ended. */
  datatype SessionEndReason = Completed | Cancelled | Timeout | Replaced | Disconnect

  /** InvitePermissions: "anyone" | "friends" | "none" (the last is `NoOne` here). */
  datatype InvitePermissions = Anyone | Friends | NoOne

  /** A participant's role: "owner" | "invited". */
  datatype Role = Owner | Invited

  /** The business-rule violations the services raise. The first five carry
      the codes of domain/errors.ts, the next eight the codes the error
      middleware switches on; the five friend-request errors have no code the
      middleware knows. */
  datatype ErrorKind =
    | ActiveSessionExists | SessionNotFound | SessionAlreadyEnded | UnauthorizedAction | InvalidSessionState
    | InviteNotFound | NotYourInvite | InviteNotPending | SessionNoLongerActive
    | OnlyOwnerCanInvite | OnlyOwnerCanRevoke | UserSettingsNotFound | UserDisabledInvites
    | FriendRequestNotFound | NotYourFriendRequest | FriendRequestNotPending | AlreadyFriends | CannotFriendSelf

  /** A thrown error: a `DomainError` subclass (code and message) or any other `Error`. */
  datatype Failure = DomainError(kind: ErrorKind, message: string) | UnexpectedError(message: string)

  /** The message a service attaches when it raises `k` with no message of its own. */
  function Describe(k: ErrorKind): string
  {
    match k
    case ActiveSessionExists => "User already has an active session"
    case SessionNotFound => "Session not found"
    case SessionAlreadyEnded => "Session has already ended"
    case UnauthorizedAction => "User is not allowed to perform this action"
    case InvalidSessionState => "Invalid session state"
    case InviteNotFound => "Invite not found"
    case NotYourInvite => "Not your invite"
    case InviteNotPending => "Invite is no longer pending"
    case SessionNoLongerActive => "Session is no longer active"
    case OnlyOwnerCanInvite => "Only owner can invite"
    case OnlyOwnerCanRevoke => "Only owner can revoke"
    case UserSettingsNotFound => "User settings not found"
    case UserDisabledInvites => "User has disabled invites"
    case FriendRequestNotFound => "Friend request not found"
    case NotYourFriendRequest => "Not your friend request"
    case FriendRequestNotPending => "Friend request is no longer pending"
    case AlreadyFriends => "Already friends"
    case CannotFriendSelf => "Cannot send friend request to self"
  }

  /** `throw new XError()` for a domain error. */
  function Raise(k: ErrorKind): Failure
  {
    DomainError(k, Describe(k))
  }
}
