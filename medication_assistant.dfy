/**
 * MedicationAssistant: the chat side panel. Its state is the list of chat
 * blocks on screen, the text being typed, a loading flag and the
 * conversation context sent to the backend; every change is mirrored into
 * browser storage. The backend call is an oracle: its outcome is a parameter.
 */
module MedicationAssistant {
  import opened Wrappers
  import Text
  import RenderBlocks

  /** A chat block: a renderable block plus who said it. */
  datatype ChatBlock = ChatBlock(kind: string, contents: seq<RenderBlocks.Content>, role: string)

  datatype ContextItem = ContextItem(role: string, content: Option<string>)

  /** What is written to storage under StorageKey (JSON text in the source). */
  datatype Snapshot = Snapshot(chatBlocks: seq<ChatBlock>, messageText: string, isLoading: bool, contextList: seq<ContextItem>)

  /** A parsed saved state: every field may be missing (or falsy). */
  datatype SavedState = SavedState(
    chatBlocks: Option<seq<ChatBlock>>, messageText: Option<string>,
    isLoading: Option<bool>, contextList: Option<seq<ContextItem>>)

  datatype ChatRequest = ChatRequest(userPrompt: string, context: seq<ContextItem>)

  /** The backend's answer: blocks to show and context to keep. */
  datatype ChatResponse = ChatResponse(blocks: seq<ChatBlock>, context: seq<ContextItem>)

  const StorageKey: string := "medication-assistant-state"

  const ErrorText: string := "Sorry, I encountered an error while processing your request. Please try again."

  function UserBlock(text: string): ChatBlock
  {
    ChatBlock("p", [RenderBlocks.Str(text)], "user")
  }

  function UserItem(text: string): ContextItem
  {
    ContextItem("user", Some(text))
  }

  const ErrorBlock: ChatBlock := ChatBlock("p", [RenderBlocks.Str(ErrorText)], "assistant")

  /**
   * The state a send settles into, given the blocks and context as they were
   * when it started: the user's message first, then the answer on success or
   * the apology block alone on failure.
   */
  function Settled(blocks: seq<ChatBlock>, context: seq<ContextItem>, text: string, reply: Result<ChatResponse, string>): (s: Snapshot)
    ensures s.messageText == "" && !s.isLoading
    ensures |s.chatBlocks| > |blocks| && s.chatBlocks[..|blocks| + 1] == blocks + [UserBlock(text)]
    ensures |s.contextList| > |context| && s.contextList[..|context| + 1] == context + [UserItem(text)]
    ensures reply.Err? ==> s.chatBlocks[|blocks| + 1..] == [ErrorBlock] && |s.contextList| == |context| + 1
    ensures reply.Ok? ==> s.chatBlocks[|blocks| + 1..] == reply.value.blocks && s.contextList[|context| + 1..] == reply.value.context
  {
    match reply
    case Ok(resp) =>
      Snapshot(blocks + [UserBlock(text)] + resp.blocks, "", false, context + [UserItem(text)] + resp.context)
    case Err(_) =>
      Snapshot(blocks + [UserBlock(text)] + [ErrorBlock], "", false, context + [UserItem(text)])
  }

  class Assistant {
    var chatBlocks: seq<ChatBlock>
    var messageText: string
    var isLoading: bool
    var contextList: seq<ContextItem>
    /** The value stored under StorageKey; None when the key is absent. */
    var stored: Option<Snapshot>

    function State(): Snapshot
      reads this
    {
      Snapshot(chatBlocks, messageText, isLoading, contextList)
    }

    /** A fresh panel: no blocks, no text, not loading, no context; storage as found. */
    constructor (stored: Option<Snapshot>)
      ensures chatBlocks == [] && messageText == "" && !isLoading && contextList == []
      ensures this.stored == stored
    {
      chatBlocks := [];
      messageText := "";
      isLoading := false;
      contextList := [];
      this.stored := stored;
    }

    /**
     * The mount effect: a saved state that parsed replaces each field (its
     * default when missing); nothing saved, or text JSON.parse rejects
     * (parsed == None), leaves the initial state.
     */
    method Restore(parsed: Option<SavedState>)
      modifies this
      ensures parsed.None? ==> State() == old(State())
      ensures parsed.Some? ==> State() == Snapshot(parsed.value.chatBlocks.GetOr([]), parsed.value.messageText.GetOr(""),
        parsed.value.isLoading.GetOr(false), parsed.value.contextList.GetOr([]))
      ensures stored == old(stored)
    {
      if parsed.Some? {
        chatBlocks := parsed.value.chatBlocks.GetOr([]);
        messageText := parsed.value.messageText.GetOr("");
        isLoading := parsed.value.isLoading.GetOr(false);
        contextList := parsed.value.contextList.GetOr([]);
      }
    }

    /** The input's onChange. */
    method Type(text: string)
      modifies this
      ensures messageText == text
      ensures chatBlocks == old(chatBlocks) && isLoading == old(isLoading)
      ensures contextList == old(contextList) && stored == old(stored)
    {
      messageText := text;
    }

    /** handleNewChat (Clear): everything emptied and the storage key removed. */
    method HandleNewChat()
      modifies this
      ensures chatBlocks == [] && messageText == "" && !isLoading && contextList == []
      ensures stored == None
    {
      chatBlocks := [];
      messageText := "";
      isLoading := false;
      contextList := [];
      stored := None;
    }

    /**
     * The synchronous part of handleSend for a non-blank message: show the
     * trimmed text as a user block, add it to the context, clear the input,
     * start loading and save. The request carries the context as it was
     * before this message.
     */
    method BeginSend() returns (request: Option<ChatRequest>)
      modifies this
      ensures Text.AllSpace(old(messageText), Text.JsIsSpace) ==> request == None && State() == old(State()) && stored == old(stored)
      ensures !Text.AllSpace(old(messageText), Text.JsIsSpace) ==>
        var text := Text.JsTrim(old(messageText));
        && request == Some(ChatRequest(text, old(contextList)))
        && chatBlocks == old(chatBlocks) + [UserBlock(text)]
        && contextList == old(contextList) + [UserItem(text)]
        && messageText == "" && isLoading
        && stored == Some(State())
    {
      var text := Text.JsTrim(messageText);
      if text == [] {
        return None;
      }
      request := Some(ChatRequest(text, contextList));
      contextList := contextList + [UserItem(text)];
      chatBlocks := chatBlocks + [UserBlock(text)];
      messageText := "";
      isLoading := true;
      stored := Some(State());
    }

    /**
     * The rest of handleSend once the request settles: blocks and context are
     * rebuilt from the ones captured when the message was sent, the state is
     * saved, and loading ends either way.
     */
    method Settle(blocks: seq<ChatBlock>, context: seq<ContextItem>, text: string, reply: Result<ChatResponse, string>)
      modifies this
      ensures var s := Settled(blocks, context, text, reply);
        && chatBlocks == s.chatBlocks && contextList == (if reply.Ok? then s.contextList else old(contextList))
        && !isLoading && messageText == old(messageText)
        && stored == Some(s)
    {
      var newBlocks := blocks + [UserBlock(text)];
      var newContext := context + [UserItem(text)];
      match reply {
        case Ok(resp) =>
          contextList := newContext + resp.context;
          chatBlocks := newBlocks + resp.blocks;
          stored := Some(Snapshot(chatBlocks, "", false, contextList));
        case Err(_) =>
          chatBlocks := newBlocks + [ErrorBlock];
          stored := Some(Snapshot(chatBlocks, "", false, newContext));
      }
      isLoading := false;
    }

    /**
     * handleSend with nothing else happening while the request is in flight:
     * a blank message changes nothing; otherwise the panel settles into
     * Settled(...) of the state before the send.
     */
    method HandleSend(reply: Result<ChatResponse, string>) returns (request: Option<ChatRequest>)
      modifies this
      ensures Text.AllSpace(old(messageText), Text.JsIsSpace) ==> request == None && State() == old(State()) && stored == old(stored)
      ensures !Text.AllSpace(old(messageText), Text.JsIsSpace) ==>
        var text := Text.JsTrim(old(messageText));
        && request == Some(ChatRequest(text, old(contextList)))
        && State() == Settled(old(chatBlocks), old(contextList), text, reply)
        && stored == Some(State())
    {
      var blocks, context := chatBlocks, contextList;
      request := BeginSend();
      if request.Some? {
        Settle(blocks, context, request.value.userPrompt, reply);
      }
    }

    /** handleKeyPress: Enter without Shift sends; anything else does nothing. */
    method HandleKeyPress(key: string, shiftKey: bool, reply: Result<ChatResponse, string>) returns (request: Option<ChatRequest>)
      modifies this
      ensures !(key == "Enter" && !shiftKey) ==> request == None && State() == old(State()) && stored == old(stored)
      ensures key == "Enter" && !shiftKey && Text.AllSpace(old(messageText), Text.JsIsSpace) ==>
        request == None && State() == old(State()) && stored == old(stored)
      ensures key == "Enter" && !shiftKey && !Text.AllSpace(old(messageText), Text.JsIsSpace) ==>
        request == Some(ChatRequest(Text.JsTrim(old(messageText)), old(contextList)))
        && State() == Settled(old(chatBlocks), old(contextList), Text.JsTrim(old(messageText)), reply)
        && stored == Some(State())
    {
      if key == "Enter" && !shiftKey {
        request := HandleSend(reply);
      } else {
        request := None;
      }
    }
  }

  // ---- properties of a send -------------------------------------------------------

  /** A send never loses history: the old blocks and context are prefixes of the new ones. */
  lemma SendExtends(blocks: seq<ChatBlock>, context: seq<ContextItem>, text: string, reply: Result<ChatResponse, string>)
    ensures var s := Settled(blocks, context, text, reply);
      blocks <= s.chatBlocks && context <= s.contextList
  {
    var s := Settled(blocks, context, text, reply);
    assert s.chatBlocks[..|blocks|] == (blocks + [UserBlock(text)])[..|blocks|] == blocks;
    assert s.contextList[..|context|] == (context + [UserItem(text)])[..|context|] == context;
  }

  /** The two outcomes differ only after the user's block, and a failure adds nothing to the context but the user's item. */
  lemma FailureKeepsUserItem(blocks: seq<ChatBlock>, context: seq<ContextItem>, text: string, resp: ChatResponse, e: string)
    ensures Settled(blocks, context, text, Err(e)).contextList == Settled(blocks, context, text, Ok(ChatResponse(resp.blocks, []))).contextList
  {
    assert context + [UserItem(text)] + [] == context + [UserItem(text)];
  }
}
