/**
 * The mock direct-contact session of `ChatContext.tsx`: the signed-in user, the selected
 * contact and, per contact id, the list of messages exchanged with that contact.
 *
 * Each list is updated by `map`/spread expressions; those are the pure functions below. The
 * session itself is a class whose methods replace its fields as the React setters do.
 */
module ChatContext {
  import opened Wrappers
  import Text

  datatype Status = Sent | Delivered | Read

  datatype User = User(id: string, name: string, avatar: string, status: string, isOnline: bool,
                       lastSeen: Option<string>)

  type Contact = User

  datatype Message = Message(id: string, senderId: string, receiverId: string, text: string,
                             timestamp: string, status: Status)

  /** `Record<string, Message[]>`: contact id to the conversation with that contact. */
  type Inbox = map<string, seq<Message>>

  /** The fixed id every locally signed-in user gets. */
  const CurrentUserId: string := "currentUser"

  const AvatarService: string := "https://api.dicebear.com/7.x/avataaars/svg?seed="

  /**
   * The `map` in `selectContact`: each message the contact sent and that is not yet read
   * becomes read. Every message from the contact ends up read; nothing else changes.
   */
  function MarkReadFrom(msgs: seq<Message>, contactId: string): (r: seq<Message>)
    ensures |r| == |msgs|
    ensures forall i :: 0 <= i < |msgs| && msgs[i].senderId == contactId ==>
              r[i] == msgs[i].(status := Read)
    ensures forall i :: 0 <= i < |msgs| && msgs[i].senderId != contactId ==> r[i] == msgs[i]
  {
    if msgs == [] then []
    else
      var m := msgs[0];
      [if m.senderId == contactId && m.status != Read then m.(status := Read) else m]
        + MarkReadFrom(msgs[1..], contactId)
  }

  /**
   * The `map` of the delivery step and of `markMessageAsRead`: every message with the given id
   * gets the given status, whatever status it had; nothing else changes.
   */
  function SetStatusOf(msgs: seq<Message>, messageId: string, status: Status): (r: seq<Message>)
    ensures |r| == |msgs|
    ensures forall i :: 0 <= i < |msgs| && msgs[i].id == messageId ==>
              r[i] == msgs[i].(status := status)
    ensures forall i :: 0 <= i < |msgs| && msgs[i].id != messageId ==> r[i] == msgs[i]
  {
    if msgs == [] then []
    else
      var m := msgs[0];
      [if m.id == messageId then m.(status := status) else m] + SetStatusOf(msgs[1..], messageId, status)
  }

  /** `messages` after `selectContact`: the contact's list, if there is one, is marked read. */
  function AfterSelect(inbox: Inbox, contactId: string): (r: Inbox)
    ensures r.Keys == inbox.Keys
    ensures forall k :: k in inbox && k != contactId ==> r[k] == inbox[k]
  {
    if contactId in inbox then inbox[contactId := MarkReadFrom(inbox[contactId], contactId)]
    else inbox
  }

  /** `messages[contactId] || []`: the contact's list, or an empty one when there is none. */
  function Conversation(inbox: Inbox, contactId: string): seq<Message>
  {
    if contactId in inbox then inbox[contactId] else []
  }

  /** `messages` after `sendMessage` appends `msg` (`prev[id] || []` creates a missing list). */
  function AfterSend(inbox: Inbox, contactId: string, msg: Message): (r: Inbox)
    ensures r.Keys == inbox.Keys + {contactId}
    ensures forall k :: k in inbox && k != contactId ==> r[k] == inbox[k]
  {
    inbox[contactId := Conversation(inbox, contactId) + [msg]]
  }

  /** `messages` after a status update on an existing list. */
  function AfterStatus(inbox: Inbox, contactId: string, messageId: string, status: Status): (r: Inbox)
    requires contactId in inbox
    ensures r.Keys == inbox.Keys
    ensures forall k :: k in inbox && k != contactId ==> r[k] == inbox[k]
  {
    inbox[contactId := SetStatusOf(inbox[contactId], messageId, status)]
  }

  /** Selecting a contact twice leaves the messages as selecting it once. */
  lemma {:induction false} MarkReadFromIdempotent(msgs: seq<Message>, contactId: string)
    ensures MarkReadFrom(MarkReadFrom(msgs, contactId), contactId) == MarkReadFrom(msgs, contactId)
  {
    if msgs != [] {
      MarkReadFromIdempotent(msgs[1..], contactId);
    }
  }

  lemma SelectIdempotent(inbox: Inbox, contactId: string)
    ensures AfterSelect(AfterSelect(inbox, contactId), contactId) == AfterSelect(inbox, contactId)
  {
    if contactId in inbox {
      MarkReadFromIdempotent(inbox[contactId], contactId);
    }
  }

  /**
   * The delivery step that follows a send: when the new id is fresh in the contact's list,
   * only the appended message changes, and it becomes delivered.
   */
  lemma DeliveryAfterSend(inbox: Inbox, contactId: string, msg: Message)
    requires contactId !in inbox || forall i :: 0 <= i < |inbox[contactId]| ==> inbox[contactId][i].id != msg.id
    ensures contactId in AfterSend(inbox, contactId, msg)
    ensures AfterStatus(AfterSend(inbox, contactId, msg), contactId, msg.id, Delivered)
            == AfterSend(inbox, contactId, msg.(status := Delivered))
  {
    var before := Conversation(inbox, contactId);
    var l := before + [msg];
    var r := SetStatusOf(l, msg.id, Delivered);
    assert r == before + [msg.(status := Delivered)] by {
      forall i | 0 <= i < |r| ensures r[i] == (before + [msg.(status := Delivered)])[i] {
        if i < |before| { assert l[i] == before[i]; }
      }
    }
  }

  /**
   * The delivery step does not respect an earlier read receipt: a message that is already
   * read becomes delivered again.
   */
  lemma DeliveryOverwritesRead(msgs: seq<Message>, i: nat)
    requires i < |msgs| && msgs[i].status == Read
    ensures SetStatusOf(msgs, msgs[i].id, Delivered)[i].status == Delivered
  {
  }

  class ChatSession {
    var currentUser: Option<User>
    var contacts: seq<Contact>
    var messages: Inbox
    var selectedContact: Option<Contact>

    /** The provider's initial state: nobody signed in, nothing selected, the seeded data. */
    constructor (contacts: seq<Contact>, messages: Inbox)
      ensures this.contacts == contacts && this.messages == messages
      ensures currentUser == None && selectedContact == None
    {
      this.contacts := contacts;
      this.messages := messages;
      currentUser := None;
      selectedContact := None;
    }

    method Login(username: string)
      modifies this
      ensures old(messages).Keys <= messages.Keys
      ensures currentUser == Some(User(CurrentUserId, username, AvatarService + username, "Online", true, None))
      ensures selectedContact == old(selectedContact)
      ensures messages == old(messages) && contacts == old(contacts)
    {
      currentUser := Some(User(CurrentUserId, username, AvatarService + username, "Online", true, None));
    }

    method Logout()
      modifies this
      ensures old(messages).Keys <= messages.Keys
      ensures currentUser == None && selectedContact == None
      ensures messages == old(messages) && contacts == old(contacts)
    {
      currentUser := None;
      selectedContact := None;
    }

    method SelectContact(contact: Contact)
      modifies this
      ensures old(messages).Keys <= messages.Keys
      ensures selectedContact == Some(contact)
      ensures messages == AfterSelect(old(messages), contact.id)
      ensures contact.id in messages ==>
                |messages[contact.id]| == |old(messages)[contact.id]|
                && forall i :: 0 <= i < |messages[contact.id]| && messages[contact.id][i].senderId == contact.id ==>
                     messages[contact.id][i].status == Read
      ensures currentUser == old(currentUser) && contacts == old(contacts)
    {
      selectedContact := Some(contact);
      if contact.id in messages {
        messages := messages[contact.id := MarkReadFrom(messages[contact.id], contact.id)];
      }
    }

    /**
     * Appends a new "sent" message (its fresh id and timestamp are given) to the selected
     * contact's conversation, unless nobody is signed in, no contact is selected or the text
     * is blank. Returns the message it appended.
     */
    method SendMessage(text: string, newId: string, timestamp: string) returns (sent: Option<Message>)
      modifies this
      ensures old(messages).Keys <= messages.Keys
      ensures sent.None? <==> old(currentUser).None? || old(selectedContact).None? || Text.IsBlank(text)
      ensures sent.None? ==> messages == old(messages)
      ensures sent.Some? ==>
                && sent.value == Message(newId, CurrentUserId, old(selectedContact).value.id, text, timestamp, Sent)
                && messages == AfterSend(old(messages), old(selectedContact).value.id, sent.value)
      ensures currentUser == old(currentUser) && selectedContact == old(selectedContact)
      ensures contacts == old(contacts)
    {
      if currentUser.None? || selectedContact.None? || Text.IsBlank(text) {
        return None;
      }
      var contactId := selectedContact.value.id;
      var msg := Message(newId, CurrentUserId, contactId, text, timestamp, Sent);
      messages := AfterSend(messages, contactId, msg);
      sent := Some(msg);
    }

    /**
     * The timer callback that `sendMessage` schedules: the message with the given id in the
     * list of the contact it was sent to becomes delivered. Indexing a missing list throws,
     * reported as `threw` with the state left alone.
     */
    method MarkDelivered(contactId: string, messageId: string) returns (threw: bool)
      modifies this
      ensures old(messages).Keys <= messages.Keys
      ensures threw <==> contactId !in old(messages)
      ensures threw ==> messages == old(messages)
      ensures !threw ==> messages == AfterStatus(old(messages), contactId, messageId, Delivered)
      ensures currentUser == old(currentUser) && selectedContact == old(selectedContact)
      ensures contacts == old(contacts)
    {
      threw := contactId !in messages;
      if !threw {
        messages := AfterStatus(messages, contactId, messageId, Delivered);
      }
    }

    /**
     * Marks the message with the given id in the selected contact's list as read; does nothing
     * when no contact is selected, and throws when the selected contact has no list.
     */
    method MarkMessageAsRead(messageId: string) returns (threw: bool)
      modifies this
      ensures old(messages).Keys <= messages.Keys
      ensures old(selectedContact).None? ==> !threw && messages == old(messages)
      ensures old(selectedContact).Some? ==> (threw <==> old(selectedContact).value.id !in old(messages))
      ensures threw ==> messages == old(messages)
      ensures old(selectedContact).Some? && !threw ==>
                messages == AfterStatus(old(messages), old(selectedContact).value.id, messageId, Read)
      ensures currentUser == old(currentUser) && selectedContact == old(selectedContact)
      ensures contacts == old(contacts)
    {
      threw := false;
      if selectedContact.None? {
        return;
      }
      var contactId := selectedContact.value.id;
      threw := contactId !in messages;
      if !threw {
        messages := AfterStatus(messages, contactId, messageId, Read);
      }
    }
  }

  /** An operation of the session that can run while a send's delivery timer is pending. */
  datatype Step =
    | LogIn(username: string)
    | LogOut
    | Select(contact: Contact)
    | Send(text: string, newId: string, timestamp: string)
    | Deliver(contactId: string, messageId: string)
    | MarkRead(messageId: string)

  /** Runs the steps in order; no operation removes a conversation. */
  method RunSteps(session: ChatSession, steps: seq<Step>)
    modifies session
    ensures old(session.messages).Keys <= session.messages.Keys
  {
    var i := 0;
    while i < |steps|
      invariant 0 <= i <= |steps|
      invariant old(session.messages).Keys <= session.messages.Keys
    {
      match steps[i] {
        case LogIn(username) => session.Login(username);
        case LogOut => session.Logout();
        case Select(contact) => session.SelectContact(contact);
        case Send(text, newId, timestamp) => var _ := session.SendMessage(text, newId, timestamp);
        case Deliver(contactId, messageId) => var _ := session.MarkDelivered(contactId, messageId);
        case MarkRead(messageId) => var _ := session.MarkMessageAsRead(messageId);
      }
      i := i + 1;
    }
  }

  /**
   * The delivery step scheduled by a successful send finds its list whatever operations run
   * before its timer fires, because none of them removes a conversation.
   */
  method SendThenDeliver(session: ChatSession, text: string, newId: string, timestamp: string,
                         between: seq<Step>)
    returns (sent: Option<Message>, threw: bool)
    modifies session
    ensures sent.Some? ==> !threw
  {
    threw := false;
    sent := session.SendMessage(text, newId, timestamp);
    if sent.Some? {
      var contactId := sent.value.receiverId;
      RunSteps(session, between);
      threw := session.MarkDelivered(contactId, newId);
    }
  }
}
