/**
 * What an action returns: the HTTP status it chooses and the body it
 * serialises (the anonymous objects and `MessageViewModel` of the source).
 */
module Responses {
  import opened Wrappers
  import opened Models

  datatype Status = Ok | Created | BadRequest | NotFound | Conflict | Unauthorized

  /** `new { c.Id, c.Name }` */
  datatype ChannelView = ChannelView(id: int, name: string)

  /** `MessageViewModel`: `Sender` is null for an anonymous message. */
  datatype MessageView = MessageView(id: int, text: string, dateSent: int, sender: Option<string>)

  datatype Body =
    | NoContent                                   // NotFound(), and the 401 of [Authorize]
    | Message(message: string)                    // BadRequest("..."), new { Message = "..." }
    | InvalidModelState                           // BadRequest(ModelState)
    | ChannelList(channels: seq<ChannelView>)
    | ChannelItem(channel: ChannelView)
    | MessageList(messages: seq<MessageView>)
    | Sent(id: int, sender: Option<string>, message: string)   // new { Id, [Sender,] Message }

  datatype Response = Response(status: Status, body: Body)

  /** The 400 both message controllers return for an absent request body. */
  const MissingMessageData := "Missing message data."

  /** `m.SenderUser != null ? m.SenderUser.UserName : null` */
  function SenderName(sender: Option<User>): (r: Option<string>)
    ensures r.None? <==> sender.None?
    ensures r.Some? ==> r.value == sender.value.userName
  {
    match sender
    case None => None
    case Some(u) => Some(u.userName)
  }

  /**
   * `OrderByDescending(DateSent).ThenByDescending(Id)`: `a` is listed
   * before `b` when it is later, or equally late with a larger id.
   */
  predicate Newer(dateA: int, idA: int, dateB: int, idB: int)
  {
    dateA > dateB || (dateA == dateB && idA > idB)
  }

  /** The order of a projected feed. */
  predicate ViewNewer(a: MessageView, b: MessageView)
  {
    Newer(a.dateSent, a.id, b.dateSent, b.id)
  }
}
