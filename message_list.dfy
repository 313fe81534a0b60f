/**
 * What `MessageList.tsx` renders from the room session: one of four views, and for each
 * message whether it is the user's own, which status tick it carries and whether a date
 * separator precedes it.
 */
module MessageList {
  import opened Wrappers
  import opened RoomContext

  datatype Indicator = SingleCheck | GreyDoubleCheck | BlueDoubleCheck

  /** `renderMessageStatus`: "sent", "delivered" and "read" get a tick; any other status gets none. */
  function StatusIndicator(status: string): (r: Option<Indicator>)
    ensures r == Some(SingleCheck) <==> status == "sent"
    ensures r == Some(GreyDoubleCheck) <==> status == "delivered"
    ensures r == Some(BlueDoubleCheck) <==> status == "read"
    ensures r == None <==> status != "sent" && status != "delivered" && status != "read"
  {
    if status == "sent" then Some(SingleCheck)
    else if status == "delivered" then Some(GreyDoubleCheck)
    else if status == "read" then Some(BlueDoubleCheck)
    else None
  }

  /** `message.sender_id === user?.id`: never true when nobody is signed in. */
  predicate IsFromMe(msg: Message, user: Option<UserId>) {
    user.Some? && msg.senderId == user.value
  }

  /**
   * One rendered message. `showSender` covers the avatar and the user name, shown only on
   * others' messages; `indicator` is the status tick, shown only on the user's own.
   */
  datatype Row = Row(message: Message, showDate: bool, fromMe: bool, showSender: bool,
                     indicator: Option<Indicator>)

  datatype View = LoadingMessages | NoRoomSelected | NoMessages | Rows(rows: seq<Row>)

  /**
   * The row for `messages[i]`. `day` stands for `new Date(created_at).getDate()`: a separator
   * precedes the first message and every message whose day differs from the previous one's.
   */
  function RowAt(messages: seq<Message>, i: nat, user: Option<UserId>, day: string -> int): Row
    requires i < |messages|
  {
    var m := messages[i];
    var mine := IsFromMe(m, user);
    Row(m, i == 0 || day(m.createdAt) != day(messages[i - 1].createdAt), mine, !mine,
        if mine then StatusIndicator(m.status) else None)
  }

  /** The early returns, in order: loading, then no room, then no messages, then the list. */
  function Render(loading: bool, currentRoom: Option<Room>, messages: seq<Message>,
                  user: Option<UserId>, day: string -> int): (v: View)
    ensures v == LoadingMessages <==> loading
    ensures v == NoRoomSelected <==> !loading && currentRoom.None?
    ensures v == NoMessages <==> !loading && currentRoom.Some? && messages == []
    ensures v.Rows? ==>
              && |v.rows| == |messages| > 0
              && v.rows[0].showDate
              && forall i :: 0 <= i < |v.rows| ==>
                   && v.rows[i].message == messages[i]
                   && (v.rows[i].fromMe <==> user.Some? && messages[i].senderId == user.value)
                   && (v.rows[i].showSender <==> !v.rows[i].fromMe)
                   && (v.rows[i].indicator.Some? ==> v.rows[i].fromMe)
  {
    if loading then LoadingMessages
    else if currentRoom.None? then NoRoomSelected
    else if |messages| == 0 then NoMessages
    else Rows(seq(|messages|, i requires 0 <= i < |messages| => RowAt(messages, i, user, day)))
  }

  /** The user's own message carries exactly the tick its status maps to. */
  lemma OwnMessageTick(currentRoom: Room, messages: seq<Message>, user: UserId, day: string -> int, i: nat)
    requires i < |messages| && messages[i].senderId == user
    ensures Render(false, Some(currentRoom), messages, Some(user), day).rows[i].indicator
            == StatusIndicator(messages[i].status)
  {
  }
}
