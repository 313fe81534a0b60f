/**
 * The selectors `ContactList.tsx` computes from the direct-contact session: the last message
 * and the unread badge of each contact, the search filter, the preview line and the
 * selection highlight.
 */
module ContactList {
  import opened Wrappers
  import opened Seqs
  import Text
  import opened ChatContext

  /** `getLastMessage`: the final message of the contact's list, or null when there is none. */
  function LastMessage(inbox: Inbox, contactId: string): (r: Option<Message>)
    ensures r.None? <==> contactId !in inbox || inbox[contactId] == []
    ensures r.Some? ==> contactId in inbox && r.value == inbox[contactId][|inbox[contactId]| - 1]
  {
    var msgs := Conversation(inbox, contactId);
    if |msgs| > 0 then Some(msgs[|msgs| - 1]) else None
  }

  predicate IsUnreadFrom(msg: Message, contactId: string) {
    msg.senderId == contactId && msg.status != Read
  }

  /** `getUnreadCount`: how many messages the contact sent that are not read yet. */
  function UnreadCount(inbox: Inbox, contactId: string): (n: nat)
    ensures contactId !in inbox ==> n == 0
    ensures n <= |Conversation(inbox, contactId)|
  {
    |Filter(Conversation(inbox, contactId), (m: Message) => IsUnreadFrom(m, contactId))|
  }

  /** The unread badge is zero exactly when every message from the contact is read. */
  lemma UnreadCountZeroIff(inbox: Inbox, contactId: string)
    ensures UnreadCount(inbox, contactId) == 0 <==>
            forall i :: 0 <= i < |Conversation(inbox, contactId)| && Conversation(inbox, contactId)[i].senderId == contactId ==>
              Conversation(inbox, contactId)[i].status == Read
  {
    var msgs := Conversation(inbox, contactId);
    var p := (m: Message) => IsUnreadFrom(m, contactId);
    if forall i :: 0 <= i < |msgs| && msgs[i].senderId == contactId ==> msgs[i].status == Read {
      FilterKeepsNone(msgs, p);
    } else {
      var i :| 0 <= i < |msgs| && msgs[i].senderId == contactId && msgs[i].status != Read;
      assert p(msgs[i]);
      assert msgs[i] in Filter(msgs, p);
    }
  }

  /** Selecting a contact clears that contact's unread badge. */
  lemma SelectClearsUnread(inbox: Inbox, contact: Contact)
    ensures UnreadCount(AfterSelect(inbox, contact.id), contact.id) == 0
  {
    UnreadCountZeroIff(AfterSelect(inbox, contact.id), contact.id);
  }

  /** Sending a message to a contact makes it that contact's last message. */
  lemma SendSetsLastMessage(inbox: Inbox, contactId: string, msg: Message)
    ensures LastMessage(AfterSend(inbox, contactId, msg), contactId) == Some(msg)
  {
  }

  /** A message sent to a contact by somebody else leaves that contact's unread badge alone. */
  lemma SendKeepsUnread(inbox: Inbox, contactId: string, msg: Message)
    requires msg.senderId != contactId
    ensures UnreadCount(AfterSend(inbox, contactId, msg), contactId) == UnreadCount(inbox, contactId)
  {
    var p := (m: Message) => IsUnreadFrom(m, contactId);
    var msgs := Conversation(inbox, contactId);
    FilterAppend(msgs, [msg], p);
    assert Filter([msg], p) == [];
    assert Conversation(AfterSend(inbox, contactId, msg), contactId) == msgs + [msg];
  }

  /** The search match: the lower-cased name contains the lower-cased term. */
  predicate NameMatches(contact: Contact, term: string) {
    Text.Contains(Text.Lower(contact.name), Text.Lower(term))
  }

  /** `filteredContacts`, reading each contact's `name`. */
  function FilteredContacts(contacts: seq<Contact>, term: string): (r: seq<Contact>)
    ensures IsSubsequence(r, contacts)
    ensures forall i :: 0 <= i < |r| ==> NameMatches(r[i], term)
    ensures forall i :: 0 <= i < |contacts| && NameMatches(contacts[i], term) ==> contacts[i] in r
    ensures forall i :: 0 <= i < |contacts| && NameMatches(contacts[i], term) ==>
              multiset(r)[contacts[i]] == multiset(contacts)[contacts[i]]
  {
    FilterIsSubsequence(contacts, (c: Contact) => NameMatches(c, term));
    FilterKeepsCount(contacts, (c: Contact) => NameMatches(c, term));
    Filter(contacts, (c: Contact) => NameMatches(c, term))
  }

  /** An empty search term keeps every contact, in order. */
  lemma EmptyTermKeepsAllContacts(contacts: seq<Contact>)
    ensures FilteredContacts(contacts, "") == contacts
  {
    FilterKeepsAll(contacts, (c: Contact) => NameMatches(c, ""));
  }

  /**
   * `filteredContacts` as written: it reads `contact.username` and calls `toLowerCase` on it.
   * A `Contact` is a `User`, whose only fields are id, name, avatar, status, isOnline and
   * lastSeen, so `username` is undefined on every contact and the call throws a TypeError
   * (reported as None) on the first contact; only an empty list gets through.
   */
  function FilteredContactsAsWritten(contacts: seq<Contact>, term: string): Option<seq<Contact>>
  {
    if contacts == [] then Some([]) else None
  }

  /** As written, the contact filter throws for every non-empty contact list, whatever the term. */
  lemma AsWrittenFilterThrows(contacts: seq<Contact>, term: string)
    requires contacts != []
    ensures FilteredContactsAsWritten(contacts, term) == None
  {
  }

  /** The preview line: the last message's text, else the contact's status, else "Available". */
  function PreviewText(last: Option<Message>, status: string): (t: string)
    ensures last.Some? ==> t == last.value.text
    ensures last.None? && status != [] ==> t == status
    ensures last.None? && status == [] ==> t == "Available"
  {
    match last
    case Some(m) => m.text
    case None => if status != [] then status else "Available"
  }

  /** After a send, the contact's preview line shows the text just sent. */
  lemma PreviewAfterSend(inbox: Inbox, contact: Contact, msg: Message)
    ensures PreviewText(LastMessage(AfterSend(inbox, contact.id, msg), contact.id), contact.status) == msg.text
  {
    SendSetsLastMessage(inbox, contact.id, msg);
  }

  /** `selectedContact?.id === contact.id`. */
  predicate IsSelected(selected: Option<Contact>, contactId: string) {
    selected.Some? && selected.value.id == contactId
  }

  /** Among the rows of contacts with distinct ids, only the selected contact's row is highlighted. */
  lemma {:induction false} OnlySelectedHighlighted(contacts: seq<Contact>, selected: Contact, i: nat)
    requires i < |contacts|
    requires forall j, k :: 0 <= j < k < |contacts| ==> contacts[j].id != contacts[k].id
    requires contacts[i] == selected
    ensures forall j :: 0 <= j < |contacts| ==> (IsSelected(Some(selected), contacts[j].id) <==> j == i)
  {
  }
}
