/** The chat store: a process-wide list of chat objects that requests append to and
    read back by position. */
module Chats {
  import opened Common

  /** The answer to a lookup by id. */
  datatype Lookup = Found(chat: Record) | NotFound(status: int, error: string)

  const ChatNotFound := "Chat not found"

  /** `chats[id]` when the id is within the list, otherwise the 404 answer (the route
      only accepts non-negative ids). */
  function ChatAt(chats: seq<Record>, id: nat): (r: Lookup)
    ensures r.Found? <==> id < |chats|
    ensures r.Found? ==> r.chat == chats[id]
    ensures r.NotFound? ==> r == NotFound(404, ChatNotFound)
  {
    if id < |chats| then Found(chats[id]) else NotFound(404, ChatNotFound)
  }

  class ChatStore {
    var chats: seq<Record>

    constructor()
      ensures chats == []
    {
      chats := [];
    }

    /** `POST /api/chats`: the chat goes at the end and is echoed back. */
    method CreateChat(data: Record) returns (echo: Record)
      modifies this
      ensures chats == old(chats) + [data]
      ensures echo == data
    {
      chats := chats + [data];
      echo := data;
    }

    /** `GET /api/chats`: the whole list as it is. */
    method GetChats() returns (all: seq<Record>)
      ensures all == chats
    {
      all := chats;
    }

    /** `GET /api/chats/<id>` */
    method GetChatById(id: nat) returns (r: Lookup)
      ensures r == ChatAt(chats, id)
    {
      if id < |chats| {
        r := Found(chats[id]);
      } else {
        r := NotFound(404, ChatNotFound);
      }
    }
  }

  /** After appending a chat, the earlier ids answer as before, the old length
      answers with the new chat, and ids beyond it are still not found. */
  lemma {:induction false} LookupAfterCreate(chats: seq<Record>, data: Record, id: nat)
    ensures id < |chats| ==> ChatAt(chats + [data], id) == ChatAt(chats, id)
    ensures id == |chats| ==> ChatAt(chats + [data], id) == Found(data)
    ensures id > |chats| ==> ChatAt(chats + [data], id) == NotFound(404, ChatNotFound)
  {
  }
}
