/** The receiving side of the SDK and its accesses to the pending map, each one atomic step of Correlation. */
module NetInterLayer {
  import opened Correlation
  import opened ThreadSafeMap
  import opened Wire
  import opened Wrappers

  datatype ConnectionType = SHORT_CONNECTION | PERSIST_CONNECTION

  class CNetInterLayer {
    var message_id_: int
    const map_message_: CThreadSafeMap<int, NetMsg>
    var list_push_message_: seq<string>

    constructor ()
      ensures message_id_ == INIT.messageId && map_message_.map_ == INIT.messages && list_push_message_ == []
      ensures fresh(map_message_)
    {
      message_id_ := 0;
      map_message_ := new CThreadSafeMap();
      list_push_message_ := [];
    }

    method GetMessageId() returns (id: int)
      modifies this`message_id_
      ensures id == message_id_ == NextMessageId(old(message_id_))
      ensures 0 <= old(message_id_) < 65535 ==> id == old(message_id_) + 1
      ensures old(message_id_) == 65535 ==> id == 1
    {
      if message_id_ >= 65535 {
        message_id_ := 0;
      }
      message_id_ := message_id_ + 1;
      id := message_id_;
    }

    method FindEventByMessageIdAndSetResponse(m: Message) returns (event: Option<nat>)
      modifies map_message_
      ensures event == EventUnder(old(map_message_.map_), m.id)
      ensures map_message_.map_ == Replaced(old(map_message_.map_), m.id, NetMsg(None, Some(m)))
    {
      var oldNetMsg := map_message_.FindAndSet(m.id, NetMsg(None, Some(m)));
      event := if oldNetMsg.Some? then oldNetMsg.value.event else None;
    }

    method FindResponseByMessageId(messageId: int) returns (response: Option<Message>)
      ensures response == ResponseUnder(map_message_.map_, messageId)
    {
      var netMsg := map_message_.Find(messageId);
      response := if netMsg.Some? then netMsg.value.response else None;
    }

    method ClearMapByMessageId(messageId: int)
      modifies map_message_
      ensures map_message_.map_ == old(map_message_.map_) - {messageId}
    {
      map_message_.Erase(messageId);
    }

    /**
     * parse finds the message id in a text, if it has one; the empty text has none. A text without an id is a push
     * message on the persistent connection and is dropped on a short one; any other one is the step Arrive. origin
     * is history.
     */
    method ReciveData(response: string, connectionType: ConnectionType, parse: string -> Option<int>, origin: nat)
      returns (posted: Option<nat>)
      requires parse("").None?
      modifies this`list_push_message_, map_message_
      ensures
        var text := Unescape(response);
        match parse(text)
        case None =>
          && posted == None && map_message_.map_ == old(map_message_.map_)
          && list_push_message_ == old(list_push_message_) + if connectionType.PERSIST_CONNECTION? then [text] else []
        case Some(id) =>
          && list_push_message_ == old(list_push_message_)
          && posted == EventUnder(old(map_message_.map_), id)
          && map_message_.map_ == Replaced(old(map_message_.map_), id, NetMsg(None, Some(Message(id, text, origin))))
    {
      var recoverString := Unescape(response);
      posted := None;
      if connectionType.PERSIST_CONNECTION? {
        if parse(recoverString).None? {
          list_push_message_ := list_push_message_ + [recoverString];
          return;
        }
      }
      var messageId := parse(recoverString);
      if messageId.None? {
        return;
      }
      posted := FindEventByMessageIdAndSetResponse(Message(messageId.value, recoverString, origin));
    }
  }
}
