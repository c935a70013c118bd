/** The chat sessions of the Telegram bot (bot.py). A call to the model is suspended while it waits
    for the network, so calls, clears and mode switches interleave at that point. */
module Chat {
  import opened Picking
  import opened Text

  type ChatID = int

  /** A running `call_claude`: its chat, and a number that tells the calls of a chat apart. */
  datatype CallID = CallID(chat: ChatID, number: int)

  datatype Content =
    | PlainText(text: string)
    | Image(mediaType: string, data: string, caption: Option<string>)

  datatype Message = User(content: Content) | Assistant(reply: string)

  datatype Payload = Payload(system: string, messages: seq<Message>, webSearch: bool)

  /** What comes back from the network: an exception, an error object, or content blocks. */
  datatype Response = NoResponse | ErrorResponse(message: string) | Blocks(blocks: seq<Block>)

  datatype Block = Block(kind: string, text: string)

  datatype Preset = Preset(title: string, system: string)

  type Presets = p: map<string, Preset> | "general" in p witness map["general" := Preset("", "")]

  const HISTORY_LIMIT := 20
  const CHUNK := 4000
  const NO_REPLY := "(응답 없음)"

  // ---- The specification ----

  /** The three dictionaries and, for each suspended call, the user message it holds. */
  datatype State = State(
    sessions: map<ChatID, seq<Message>>,
    preset: map<ChatID, string>,
    search: map<ChatID, bool>,
    open: map<CallID, Content>)

  const EMPTY := State(map[], map[], map[], map[])

  datatype Event =
    | Start(call: CallID, content: Content)
    | Return(call: CallID, response: Response)
    | Clear(chat: ChatID)
    | Switch(chat: ChatID, key: string)
    | ToggleSearch(chat: ChatID)

  function Get<K, V>(m: map<K, V>, k: K, default: V): V {
    if k in m then m[k] else default
  }

  function History(s: State, chat: ChatID): seq<Message> {
    Get(s.sessions, chat, [])
  }

  /** `s[-n:]`. */
  function Last<T>(s: seq<T>, n: nat): seq<T> {
    if |s| <= n then s else s[|s| - n..]
  }

  function Concat(blocks: seq<Block>): string {
    if blocks == [] then ""
    else Concat(blocks[..|blocks| - 1]) + if blocks[|blocks| - 1].kind == "text" then blocks[|blocks| - 1].text else ""
  }

  /** The text blocks joined, or a fixed text when there is nothing in them. */
  function ReplyText(blocks: seq<Block>): string {
    if Concat(blocks) == "" then NO_REPLY else Concat(blocks)
  }

  function TextsOf(blocks: seq<Block>): (texts: seq<string>)
    ensures |texts| == |blocks|
    ensures forall i :: 0 <= i < |blocks| ==> texts[i] == if blocks[i].kind == "text" then blocks[i].text else ""
  {
    seq(|blocks|, i requires 0 <= i < |blocks| => if blocks[i].kind == "text" then blocks[i].text else "")
  }

  /** The reply is the texts of the text blocks in their order, or says that there is none. */
  ghost predicate IsReply(blocks: seq<Block>, reply: string) {
    exists whole, at :: InPieces(whole, TextsOf(blocks), at) && reply == if whole == "" then "(응답 없음)" else whole
  }

  lemma {:induction false} ConcatInPieces(blocks: seq<Block>) returns (at: seq<nat>)
    ensures InPieces(Concat(blocks), TextsOf(blocks), at)
  {
    at := [];
    if blocks != [] {
      var n := |blocks| - 1;
      at := ConcatInPieces(blocks[..n]);
      OneMoreText(blocks, at);
      at := at + [|Concat(blocks[..n])|];
    }
  }

  lemma OneMoreText(blocks: seq<Block>, at: seq<nat>)
    requires blocks != [] && InPieces(Concat(blocks[..|blocks| - 1]), TextsOf(blocks[..|blocks| - 1]), at)
    ensures InPieces(Concat(blocks), TextsOf(blocks), at + [|Concat(blocks[..|blocks| - 1])|])
  {
    var n := |blocks| - 1;
    OneMorePiece(Concat(blocks[..n]), TextsOf(blocks[..n]), at, TextsOf(blocks)[n]);
    assert TextsOf(blocks) == TextsOf(blocks[..n]) + [TextsOf(blocks)[n]];
    assert Concat(blocks) == Concat(blocks[..n]) + TextsOf(blocks)[n];
  }

  lemma ReplyTextIs(blocks: seq<Block>)
    ensures IsReply(blocks, ReplyText(blocks))
  {
    var at := ConcatInPieces(blocks);
  }

  /** The system text of a chat's mode; a mode that does not exist counts as the general one. */
  function System(presets: Presets, s: State, chat: ChatID): string {
    Get(presets, Get(s.preset, chat, "general"), presets["general"]).system
  }

  function Sent(presets: Presets, s: State, call: CallID, content: Content): Payload {
    Payload(System(presets, s, call.chat), Last(History(s, call.chat), HISTORY_LIMIT) + [User(content)], Get(s.search, call.chat, false))
  }

  /** A call starts under a name of its own, and returns once. */
  predicate Possible(s: State, e: Event) {
    (e.Start? ==> e.call !in s.open) && (e.Return? ==> e.call in s.open)
  }

  function Step(s: State, e: Event): State
    requires Possible(s, e)
  {
    match e
    case Start(call, content) => s.(open := s.open[call := content])
    case Return(call, response) =>
      var closed := s.(open := s.open - {call});
      if response.Blocks? then
        closed.(sessions := s.sessions[call.chat := History(s, call.chat) + [User(s.open[call]), Assistant(ReplyText(response.blocks))]])
      else closed
    case Clear(chat) => s.(sessions := s.sessions - {chat})
    case Switch(chat, key) => s.(preset := s.preset[chat := key], sessions := s.sessions - {chat})
    case ToggleSearch(chat) => s.(search := s.search[chat := !Get(s.search, chat, false)])
  }

  // ---- The bot ----

  class Bot {
    const presets: Presets
    var sessions: map<ChatID, seq<Message>>
    var preset: map<ChatID, string>
    var search: map<ChatID, bool>
    var open: map<CallID, Content>

    function Now(): State
      reads this
    {
      State(sessions, preset, search, open)
    }

    constructor (presets: Presets)
      ensures Now() == EMPTY && this.presets == presets
    {
      this.presets := presets;
      sessions, preset, search, open := map[], map[], map[], map[];
    }

    /** `call_claude` up to the network await; the call keeps its user message. */
    method StartCall(call: CallID, text: string, imageB64: Option<string>, imageType: string) returns (payload: Payload)
      requires call !in open
      modifies this
      ensures Now() == Step(old(Now()), Start(call, ContentOf(text, imageB64, imageType)))
      ensures payload == Sent(presets, old(Now()), call, ContentOf(text, imageB64, imageType))
      ensures imageB64.None? || imageB64.value == "" ==> open == old(open)[call := PlainText(text)]
      ensures imageB64.Some? && imageB64.value != "" ==>
        open == old(open)[call := Image(imageType, imageB64.value, if text == "" then None else Some(text))]
      ensures payload.messages != [] && payload.messages[|payload.messages| - 1] == User(open[call])
    {
      var history := Last(Get(sessions, call.chat, []), HISTORY_LIMIT);
      var content := PlainText(text);
      if imageB64.Some? && imageB64.value != "" {
        content := Image(imageType, imageB64.value, None);
        if text != "" {
          content := content.(caption := Some(text));
        }
      }
      var messages := history + [User(content)];
      payload := Payload(System(presets, Now(), call.chat), messages, false);
      if Get(search, call.chat, false) {
        payload := payload.(webSearch := true);
      }
      open := open[call := content];
    }

    /** `call_claude` after the await: None is the exception. */
    method ReturnCall(call: CallID, response: Response) returns (reply: Option<string>)
      requires call in open
      modifies this
      ensures Now() == Step(old(Now()), Return(call, response))
      ensures reply == if response.Blocks? then Some(ReplyText(response.blocks)) else None
      ensures response.Blocks? ==> IsReply(response.blocks, reply.value)
    {
      var content := open[call];
      open := open - {call};
      if !response.Blocks? {
        return None;
      }
      var text := JoinText(response.blocks);
      Remember(call.chat, content, text);
      reply := Some(text);
    }

    /** The history gets the question and the answer. */
    method Remember(chat: ChatID, content: Content, text: string)
      modifies this`sessions
      ensures sessions == old(sessions)[chat := Get(old(sessions), chat, []) + [User(content), Assistant(text)]]
    {
      ghost var history := Get(sessions, chat, []);
      if chat !in sessions {
        sessions := sessions[chat := []];
      }
      sessions := sessions[chat := sessions[chat] + [User(content)]];
      sessions := sessions[chat := sessions[chat] + [Assistant(text)]];
      assert history + [User(content)] + [Assistant(text)] == history + [User(content), Assistant(text)];
    }

    method ClearHistory(chat: ChatID)
      modifies this
      ensures Now() == Step(old(Now()), Event.Clear(chat))
    {
      sessions := sessions - {chat};
    }

    /** `on_callback`; `failed` is the KeyError for a mode that does not exist, raised when the mode
        and the history are changed already. */
    method OnCallback(chat: ChatID, data: string) returns (failed: bool)
      modifies this
      ensures Now() == if Pressed(chat, data).Some? then Step(old(Now()), Pressed(chat, data).value) else old(Now())
      ensures open == old(open)
      ensures "p:" <= data ==>
        preset == old(preset)[chat := data[2..]] && sessions == old(sessions) - {chat} && search == old(search)
      ensures data == "toggle_search" ==>
        search == old(search)[chat := !(chat in old(search) && old(search)[chat])] && sessions == old(sessions) && preset == old(preset)
      ensures data == "clear" ==> sessions == old(sessions) - {chat} && preset == old(preset) && search == old(search)
      ensures failed <==> "p:" <= data && data[2..] !in presets
      ensures failed ==> (Now() == old(Now()) <==> Switched(old(Now()), chat, data[2..]))
    {
      failed := false;
      assert "toggle_search"[0] != "p:"[0] && "clear"[0] != "p:"[0];
      if "p:" <= data {
        var key := data[2..];
        preset := preset[chat := key];
        sessions := sessions - {chat};
        failed := key !in presets;
        SwitchChangesNothingIff(old(Now()), chat, key);
      } else if data == "toggle_search" {
        search := search[chat := !Get(search, chat, false)];
      } else if data == "clear" {
        sessions := sessions - {chat};
      }
    }
  }

  /** The call is no longer suspended. Its question and the answer, if there is one, are new at the
      end of the chat's history, and nothing else changed. */
  ghost predicate Returned(s: State, t: State, call: CallID, reply: Option<string>)
    requires call in s.open
  {
    && t.preset == s.preset && t.search == s.search && t.open == s.open - {call}
    && t.sessions == if reply.None? then s.sessions else
         var before := if call.chat in s.sessions then s.sessions[call.chat] else [];
         s.sessions[call.chat := before + [User(s.open[call]), Assistant(reply.value)]]
  }

  lemma ReturnIs(s: State, call: CallID, response: Response)
    requires call in s.open
    ensures Returned(s, Step(s, Return(call, response)), call, if response.Blocks? then Some(ReplyText(response.blocks)) else None)
  {
  }

  /** The chat is in the mode already and has no history. */
  predicate Switched(s: State, chat: ChatID, key: string) {
    chat in s.preset && s.preset[chat] == key && chat !in s.sessions
  }

  /** A switch, failing or not, leaves everything as it was exactly then. */
  lemma SwitchChangesNothingIff(s: State, chat: ChatID, key: string)
    ensures Step(s, Switch(chat, key)) == s <==> Switched(s, chat, key)
  {
    if Switched(s, chat, key) {
      assert s.preset[chat := key] == s.preset && s.sessions - {chat} == s.sessions;
    }
    assert chat !in (s.sessions - {chat}) && s.preset[chat := key][chat] == key;
  }

  /** After a switch to a mode that does not exist the chat is asked as in the general mode. */
  lemma UnknownModeIsGeneral(presets: Presets, s: State, chat: ChatID, key: string)
    requires key !in presets
    ensures System(presets, Step(s, Switch(chat, key)), chat) == presets["general"].system
  {
  }

  /** A question is answered, then an unknown mode is asked for: the callback fails, the history and
      the mode are gone. */
  method FailingCallbackBites(presets: Presets, chat: ChatID, text: string, answer: Response)
    returns (bot: Bot, failed: bool)
    requires "none" !in presets && answer.Blocks?
    ensures failed && History(bot.Now(), chat) == [] && chat in bot.preset && bot.preset[chat] == "none"
  {
    bot := new Bot(presets);
    var call := CallID(chat, 0);
    var payload := bot.StartCall(call, text, None, "image/jpeg");
    var reply := bot.ReturnCall(call, answer);
    assert |History(bot.Now(), chat)| == 2;
    failed := bot.OnCallback(chat, "p:none");
    assert "p:none"[2..] == "none";
  }

  function ContentOf(text: string, imageB64: Option<string>, imageType: string): Content {
    if imageB64.Some? && imageB64.value != "" then
      Image(imageType, imageB64.value, if text != "" then Some(text) else None)
    else PlainText(text)
  }

  function Pressed(chat: ChatID, data: string): (e: Option<Event>)
    ensures e.Some? ==> !e.value.Start? && !e.value.Return?
  {
    if "p:" <= data then Some(Switch(chat, data[2..]))
    else if data == "toggle_search" then Some(ToggleSearch(chat))
    else if data == "clear" then Some(Event.Clear(chat))
    else None
  }

  /** The texts of the text blocks, or a fixed text when there is nothing in them. */
  method JoinText(blocks: seq<Block>) returns (text: string)
    ensures text == ReplyText(blocks) && IsReply(blocks, text)
  {
    text := "";
    for i := 0 to |blocks|
      invariant text == Concat(blocks[..i])
    {
      assert blocks[..i + 1][..i] == blocks[..i];
      if blocks[i].kind == "text" {
        text := text + blocks[i].text;
      }
    }
    assert blocks[..|blocks|] == blocks;
    ReplyTextIs(blocks);
    if text == "" {
      text := NO_REPLY;
    }
  }

  // ---- Runs ----

  /** Every interleaving of the bot's steps, from the empty state. */
  predicate Valid(events: seq<Event>)
    decreases |events|, 0
  {
    events == [] || (Valid(Before(events)) && Possible(Run(Before(events)), LastOf(events)))
  }

  function Run(events: seq<Event>): State
    requires Valid(events)
    decreases |events|, 1
  {
    if events == [] then EMPTY else Step(Run(Before(events)), LastOf(events))
  }

  function Before<T>(s: seq<T>): seq<T>
    requires s != []
  {
    s[..|s| - 1]
  }

  function LastOf<T>(s: seq<T>): T
    requires s != []
  {
    s[|s| - 1]
  }

  // ---- What a run should have left, read off its events ----

  datatype Turn = Turn(asked: Content, answered: string)

  /** What the call was last started with, unless it has returned since. */
  function Asked(events: seq<Event>, call: CallID): Option<Content> {
    if events == [] then None
    else
      match LastOf(events)
      case Start(c, content) => if c == call then Some(content) else Asked(Before(events), call)
      case Return(c, _) => if c == call then None else Asked(Before(events), call)
      case _ => Asked(Before(events), call)
  }

  predicate Resets(e: Event, chat: ChatID) {
    (e.Clear? || e.Switch?) && e.chat == chat
  }

  predicate Completes(e: Event, chat: ChatID) {
    e.Return? && e.response.Blocks? && e.call.chat == chat
  }

  /** One turn for each completion since the last reset, in the order of the completions. */
  function Turns(events: seq<Event>, chat: ChatID): seq<Turn> {
    if events == [] || Resets(LastOf(events), chat) then []
    else
      var e := LastOf(events);
      if Completes(e, chat) && Asked(Before(events), e.call).Some? then
        Turns(Before(events), chat) + [Turn(Asked(Before(events), e.call).value, ReplyText(e.response.blocks))]
      else Turns(Before(events), chat)
  }

  function Mode(events: seq<Event>, chat: ChatID): string {
    if events == [] then "general"
    else if LastOf(events).Switch? && LastOf(events).chat == chat then LastOf(events).key
    else Mode(Before(events), chat)
  }

  function Toggles(events: seq<Event>, chat: ChatID): nat {
    if events == [] then 0
    else Toggles(Before(events), chat) + if LastOf(events) == ToggleSearch(chat) then 1 else 0
  }

  function Completions(events: seq<Event>, chat: ChatID): nat {
    if events == [] || Resets(LastOf(events), chat) then 0
    else Completions(Before(events), chat) + if Completes(LastOf(events), chat) then 1 else 0
  }

  function Messages(turns: seq<Turn>): seq<Message> {
    if turns == [] then []
    else Messages(Before(turns)) + [User(LastOf(turns).asked), Assistant(LastOf(turns).answered)]
  }

  lemma RunExtends(events: seq<Event>, e: Event)
    requires Valid(events) && Possible(Run(events), e)
    ensures Valid(events + [e]) && Run(events + [e]) == Step(Run(events), e)
  {
    assert Before(events + [e]) == events && LastOf(events + [e]) == e;
  }

  lemma MessagesAppend(turns: seq<Turn>, turn: Turn)
    ensures Messages(turns + [turn]) == Messages(turns) + [User(turn.asked), Assistant(turn.answered)]
  {
    assert Before(turns + [turn]) == turns && LastOf(turns + [turn]) == turn;
  }

  lemma {:induction false} OpenCalls(events: seq<Event>, call: CallID)
    requires Valid(events)
    ensures call in Run(events).open <==> Asked(events, call).Some?
    ensures call in Run(events).open ==> Run(events).open[call] == Asked(events, call).value
  {
    if events != [] {
      OpenCalls(Before(events), call);
    }
  }

  /** In every run the history of every chat is whole turns, one per completion since the last
      reset: a failed, cleared or still suspended call leaves nothing behind. */
  lemma {:induction false} HistoryIsTurns(events: seq<Event>, chat: ChatID)
    requires Valid(events)
    ensures History(Run(events), chat) == Messages(Turns(events, chat))
    ensures |Turns(events, chat)| == Completions(events, chat)
  {
    if events != [] {
      var e := LastOf(events);
      HistoryIsTurns(Before(events), chat);
      if Completes(e, chat) {
        OpenCalls(Before(events), e.call);
        MessagesAppend(Turns(Before(events), chat), Turn(Asked(Before(events), e.call).value, ReplyText(e.response.blocks)));
      }
    }
  }

  // ---- The same by positions in the run ----

  function Indices(n: nat): (s: seq<nat>)
    ensures |s| == n && forall i :: 0 <= i < n ==> s[i] == i
  {
    seq(n, i requires 0 <= i < n => i)
  }

  /** Event `j` started the call with `content`, and nothing since started or ended it. */
  ghost predicate AskedAt(events: seq<Event>, call: CallID, content: Content, j: nat) {
    && j < |events| && events[j] == Start(call, content)
    && forall k :: j < k < |events| ==> !((events[k].Start? || events[k].Return?) && events[k].call == call)
  }

  /** Event `i` brings a reply to the chat, whose history is not reset after it. */
  ghost predicate Answers(events: seq<Event>, chat: ChatID, i: nat) {
    && i < |events| && events[i].Return? && events[i].response.Blocks? && events[i].call.chat == chat
    && forall k :: i < k < |events| ==> !((events[k].Clear? || events[k].Switch?) && events[k].chat == chat)
  }

  ghost function Answering(events: seq<Event>, chat: ChatID): nat -> bool {
    (i: nat) => Answers(events, chat, i)
  }

  /** What was asked when the call was started, and what its reply says. */
  ghost predicate TurnOf(events: seq<Event>, i: nat, turn: Turn) {
    && i < |events| && events[i].Return? && events[i].response.Blocks?
    && (exists j: nat :: AskedAt(events[..i], events[i].call, turn.asked, j))
    && IsReply(events[i].response.blocks, turn.answered)
  }

  ghost function TurnsOf(events: seq<Event>): (nat, Turn) -> bool {
    (i: nat, turn: Turn) => TurnOf(events, i, turn)
  }

  lemma {:induction false} AskedIs(events: seq<Event>, call: CallID)
    requires Asked(events, call).Some?
    ensures exists j: nat :: AskedAt(events, call, Asked(events, call).value, j)
  {
    var n := |events| - 1;
    if events[n].Start? && events[n].call == call {
      assert AskedAt(events, call, events[n].content, n);
    } else {
      AskedIs(Before(events), call);
      var j: nat :| AskedAt(Before(events), call, Asked(events, call).value, j);
      assert AskedAt(events, call, Asked(events, call).value, j);
    }
  }

  /** An event that does not reset the chat leaves the turns before it as they were. */
  lemma SameTurns(events: seq<Event>, chat: ChatID, turns: seq<Turn>)
    requires events != [] && !Resets(LastOf(events), chat)
    requires Picks(Answering(Before(events), chat), TurnsOf(Before(events)), Indices(|events| - 1), turns)
    ensures Picks(Answering(events, chat), TurnsOf(events), Indices(|events| - 1), turns)
  {
    var before, n: nat := Before(events), |events| - 1;
    forall i: nat | 0 <= i < n ensures Answers(before, chat, i) == Answers(events, chat, i) {
      assert before[i] == events[i];
    }
    forall i: nat, turn | 0 <= i < n && TurnOf(before, i, turn) ensures TurnOf(events, i, turn) {
      assert before[..i] == events[..i];
    }
    PicksAlike(Answering(before, chat), TurnsOf(before), Answering(events, chat), TurnsOf(events), Indices(n), turns);
  }

  /** The turns are those of the replies since the last reset, in their order. */
  lemma {:induction false} TurnsAre(events: seq<Event>, chat: ChatID)
    requires Valid(events)
    ensures Picks(Answering(events, chat), TurnsOf(events), Indices(|events|), Turns(events, chat))
  {
    if events == [] {
      PicksNone(Answering(events, chat), TurnsOf(events), Indices(0));
    } else {
      var n: nat, e := |events| - 1, LastOf(events);
      if Resets(e, chat) {
        forall i: nat | 0 <= i <= n ensures !Answers(events, chat, i) {
          assert events[n] == e;
        }
        PicksNone(Answering(events, chat), TurnsOf(events), Indices(n + 1));
      } else {
        var turns := Turns(Before(events), chat);
        TurnsAre(Before(events), chat);
        SameTurns(events, chat, turns);
        assert Indices(n + 1) == Indices(n) + [n];
        LastTurn(events, chat);
        if Completes(e, chat) {
          PicksLast(Answering(events, chat), TurnsOf(events), Indices(n), turns, n, LastOf(Turns(events, chat)));
        } else {
          SkipsLast(Answering(events, chat), TurnsOf(events), Indices(n), turns, n);
        }
      }
    }
  }

  lemma LastTurn(events: seq<Event>, chat: ChatID)
    requires Valid(events) && events != [] && !Resets(LastOf(events), chat)
    ensures Answers(events, chat, |events| - 1) <==> Completes(LastOf(events), chat)
    ensures Completes(LastOf(events), chat) ==>
      && Turns(events, chat) != [] && Turns(events, chat) == Turns(Before(events), chat) + [LastOf(Turns(events, chat))]
      && TurnOf(events, |events| - 1, LastOf(Turns(events, chat)))
  {
    var n, e := |events| - 1, LastOf(events);
    if Completes(e, chat) {
      OpenCalls(Before(events), e.call);
      AskedIs(Before(events), e.call);
      ReplyTextIs(e.response.blocks);
      assert events[..n] == Before(events);
    }
  }

  lemma {:induction false} MessagesAre(turns: seq<Turn>)
    ensures |Messages(turns)| == 2 * |turns|
    ensures forall k :: 0 <= k < |turns| ==>
      Messages(turns)[2 * k] == User(turns[k].asked) && Messages(turns)[2 * k + 1] == Assistant(turns[k].answered)
  {
    if turns != [] {
      var n := |turns| - 1;
      MessagesAre(Before(turns));
      assert forall k :: 0 <= k < n ==> Before(turns)[k] == turns[k];
    }
  }

  /** In every run the history of a chat is two messages for each reply since its last reset, in the
      order of the replies: what its call was started with, and what the reply says. */
  lemma HistoryByPosition(events: seq<Event>, chat: ChatID) returns (turns: seq<Turn>)
    requires Valid(events)
    ensures Picks(Answering(events, chat), TurnsOf(events), Indices(|events|), turns)
    ensures var history := History(Run(events), chat);
      && |history| == 2 * |turns|
      && forall k :: 0 <= k < |turns| ==>
           history[2 * k] == User(turns[k].asked) && history[2 * k + 1] == Assistant(turns[k].answered)
  {
    turns := Turns(events, chat);
    HistoryIsTurns(events, chat);
    TurnsAre(events, chat);
    MessagesAre(turns);
  }

  /** The mode is that of the last switch. */
  lemma {:induction false} ModeIs(events: seq<Event>, chat: ChatID)
    ensures forall i: nat :: i < |events| && LastSwitch(events, chat, i) ==> Mode(events, chat) == events[i].key
    ensures (forall i :: 0 <= i < |events| ==> !Switches(events[i], chat)) ==> Mode(events, chat) == "general"
  {
    if events != [] {
      var n := |events| - 1;
      ModeIs(Before(events), chat);
      forall i: nat | i < |events| && LastSwitch(events, chat, i) ensures Mode(events, chat) == events[i].key {
        if i < n {
          assert !Switches(events[n], chat);
          assert LastSwitch(Before(events), chat, i);
        }
      }
      if forall i :: 0 <= i < |events| ==> !Switches(events[i], chat) {
        assert forall i :: 0 <= i < n ==> Before(events)[i] == events[i];
      }
    }
  }

  ghost predicate LastSwitch(events: seq<Event>, chat: ChatID, i: nat) {
    i < |events| && Switches(events[i], chat) && forall k :: i < k < |events| ==> !Switches(events[k], chat)
  }

  predicate Switches(e: Event, chat: ChatID) {
    e.Switch? && e.chat == chat
  }

  lemma {:induction false} ModeAndSearch(events: seq<Event>, chat: ChatID)
    requires Valid(events)
    ensures Get(Run(events).preset, chat, "general") == Mode(events, chat)
    ensures Get(Run(events).search, chat, false) <==> Toggles(events, chat) % 2 == 1
  {
    if events != [] {
      ModeAndSearch(Before(events), chat);
    }
  }

  /** The shape the API asks for: user and assistant in turn, user first and last, no empty
      assistant message, and within the limit. */
  ghost predicate Conversation(messages: seq<Message>) {
    && |messages| % 2 == 1 && |messages| <= HISTORY_LIMIT + 1
    && forall i: nat :: i < |messages| ==> InTurn(messages[i], i)
  }

  predicate InTurn(m: Message, i: nat) {
    (m.User? <==> i % 2 == 0) && (m.Assistant? ==> m.reply != "")
  }

  ghost predicate Answered(turns: seq<Turn>) {
    forall i :: 0 <= i < |turns| ==> turns[i].answered != ""
  }

  lemma {:induction false} MessagesOfTurns(turns: seq<Turn>)
    requires Answered(turns)
    ensures |Messages(turns)| == 2 * |turns|
    ensures forall i: nat :: i < |Messages(turns)| ==> InTurn(Messages(turns)[i], i)
  {
    if turns != [] {
      MessagesOfTurns(Before(turns));
      var n, m := |turns| - 1, Messages(Before(turns));
      assert Messages(turns)[..2 * n] == m;
      forall i: nat | i < 2 * n + 2 ensures InTurn(Messages(turns)[i], i) {
        assert i < 2 * n ==> Messages(turns)[i] == m[i] && InTurn(m[i], i);
      }
    }
  }

  lemma {:induction false} MessagesConcat(a: seq<Turn>, b: seq<Turn>)
    ensures Messages(a + b) == Messages(a) + Messages(b)
  {
    if b == [] {
      assert a + b == a;
    } else {
      MessagesConcat(a, Before(b));
      assert Before(a + b) == a + Before(b);
    }
  }

  lemma {:induction false} TurnsAnswered(events: seq<Event>, chat: ChatID)
    ensures Answered(Turns(events, chat))
  {
    if events != [] {
      TurnsAnswered(Before(events), chat);
    }
  }

  /** The cut to the last twenty messages falls between turns. */
  lemma LastMessages(turns: seq<Turn>)
    requires Answered(turns)
    ensures Last(Messages(turns), HISTORY_LIMIT) == Messages(Last(turns, HISTORY_LIMIT / 2))
  {
    MessagesOfTurns(turns);
    if |turns| > HISTORY_LIMIT / 2 {
      var cut := |turns| - HISTORY_LIMIT / 2;
      assert turns == turns[..cut] + turns[cut..];
      MessagesConcat(turns[..cut], turns[cut..]);
      assert Answered(turns[cut..]) && Answered(turns[..cut]);
      MessagesOfTurns(turns[cut..]);
      MessagesOfTurns(turns[..cut]);
    }
  }

  lemma OneMoreQuestion(m: seq<Message>, content: Content)
    requires |m| % 2 == 0 && |m| <= HISTORY_LIMIT && forall i: nat :: i < |m| ==> InTurn(m[i], i)
    ensures Conversation(m + [User(content)])
  {
    var all := m + [User(content)];
    forall i: nat | i < |all| ensures InTurn(all[i], i) {
      assert i < |m| ==> all[i] == m[i];
    }
  }

  /** Every payload, in every interleaving: the last ten turns and the new message, in the mode of
      the last switch, with the search as often as toggled. */
  lemma {:induction false} PayloadOfRun(presets: Presets, events: seq<Event>, call: CallID, content: Content)
    requires Valid(events)
    ensures var p := Sent(presets, Run(events), call, content);
      && (var turns := Turns(events, call.chat);
          p.messages == Messages(if |turns| > 10 then turns[|turns| - 10..] else turns) + [User(content)])
      && Conversation(p.messages)
      && (var mode := Mode(events, call.chat);
          p.system == (if mode in presets then presets[mode] else presets["general"]).system)
      && (p.webSearch <==> Toggles(events, call.chat) % 2 == 1)
  {
    var turns := Turns(events, call.chat);
    HistoryIsTurns(events, call.chat);
    ModeAndSearch(events, call.chat);
    TurnsAnswered(events, call.chat);
    LastMessages(turns);
    MessagesOfTurns(Last(turns, 10));
    OneMoreQuestion(Messages(Last(turns, 10)), content);
  }

  /** A reset does not reach a suspended call: its turn opens the new history. */
  lemma SuspendedCallOutlivesReset(events: seq<Event>, call: CallID, blocks: seq<Block>)
    requires Valid(events) && call in Run(events).open
    ensures Valid(events + [Event.Clear(call.chat)] + [Return(call, Blocks(blocks))])
    ensures History(Run(events + [Event.Clear(call.chat)] + [Return(call, Blocks(blocks))]), call.chat)
      == [User(Run(events).open[call]), Assistant(ReplyText(blocks))]
  {
    RunExtends(events, Event.Clear(call.chat));
    RunExtends(events + [Event.Clear(call.chat)], Return(call, Blocks(blocks)));
  }

  /** Whatever follows a reset, the history is what was asked and answered after it. */
  ghost predicate CleanReset(pre: seq<Event>, reset: Event, chat: ChatID) {
    forall post ::
      Valid(pre + [reset] + post) ==> History(Run(pre + [reset] + post), chat) == Messages(Turns(post, chat))
  }

  lemma {:induction false} AskedAfter(start: seq<Event>, post: seq<Event>, call: CallID)
    requires Asked(start, call).None?
    ensures Asked(start + post, call) == Asked(post, call)
  {
    if post == [] {
      assert start + post == start;
    } else {
      AskedAfter(start, Before(post), call);
      assert Before(start + post) == start + Before(post) && LastOf(start + post) == LastOf(post);
    }
  }

  lemma {:induction false} TurnsAfter(start: seq<Event>, post: seq<Event>, chat: ChatID)
    requires Turns(start, chat) == []
    requires forall call: CallID :: call.chat == chat ==> Asked(start, call).None?
    ensures Turns(start + post, chat) == Turns(post, chat)
  {
    if post == [] {
      assert start + post == start;
    } else {
      var e := LastOf(post);
      TurnsAfter(start, Before(post), chat);
      assert Before(start + post) == start + Before(post) && LastOf(start + post) == e;
      if Completes(e, chat) {
        AskedAfter(start, Before(post), e.call);
      }
    }
  }

  /** A clear or a mode switch leaves a history of its own, whatever follows, exactly when no call
      of the chat is suspended at the time. */
  lemma CleanResetIff(pre: seq<Event>, reset: Event, chat: ChatID)
    requires Valid(pre) && Resets(reset, chat)
    ensures CleanReset(pre, reset, chat) <==> forall call: CallID :: call.chat == chat ==> call !in Run(pre).open
  {
    var start := pre + [reset];
    assert Before(start) == pre && LastOf(start) == reset;
    if forall call: CallID :: call.chat == chat ==> call !in Run(pre).open {
      forall call: CallID | call.chat == chat ensures Asked(start, call).None? {
        OpenCalls(pre, call);
      }
      forall post | Valid(start + post) ensures History(Run(start + post), chat) == Messages(Turns(post, chat)) {
        TurnsAfter(start, post, chat);
        HistoryIsTurns(start + post, chat);
      }
    }
    if call: CallID :| call.chat == chat && call in Run(pre).open {
      LeakAfterReset(pre, reset, call);
    }
  }

  lemma LeakAfterReset(pre: seq<Event>, reset: Event, call: CallID)
    requires Valid(pre) && Resets(reset, call.chat) && call in Run(pre).open
    ensures !CleanReset(pre, reset, call.chat)
  {
    var start, post := pre + [reset], [Return(call, Blocks([]))];
    assert Before(start) == pre && LastOf(start) == reset;
    assert Before(start + post) == start && LastOf(start + post) == post[0] && Before(post) == [];
    RunExtends(pre, reset);
    RunExtends(start, post[0]);
    assert |History(Run(start + post), call.chat)| >= 2;
    assert Turns(post, call.chat) == [];
  }

  // ---- Chats do not see each other ----

  function ChatOf(e: Event): ChatID {
    if e.Start? || e.Return? then e.call.chat else e.chat
  }

  function Only(events: seq<Event>, chat: ChatID): seq<Event> {
    if events == [] then []
    else if ChatOf(LastOf(events)) == chat then Only(Before(events), chat) + [LastOf(events)]
    else Only(Before(events), chat)
  }

  /** The two states are the same as far as the chat goes. */
  ghost predicate SameFor(chat: ChatID, s: State, t: State) {
    && History(s, chat) == History(t, chat)
    && Get(s.preset, chat, "general") == Get(t.preset, chat, "general")
    && Get(s.search, chat, false) == Get(t.search, chat, false)
    && (forall call: CallID :: call.chat == chat ==>
      (call in s.open <==> call in t.open) && (call in s.open ==> s.open[call] == t.open[call]))
  }

  lemma OwnStep(chat: ChatID, s: State, t: State, e: Event)
    requires SameFor(chat, s, t) && ChatOf(e) == chat && Possible(s, e)
    ensures Possible(t, e) && SameFor(chat, Step(s, e), Step(t, e))
  {
    if e.Return? {
      var turn := [User(s.open[e.call]), Assistant(if e.response.Blocks? then ReplyText(e.response.blocks) else "")];
      assert turn[0] == User(t.open[e.call]);
    }
  }

  lemma ForeignStep(chat: ChatID, s: State, t: State, e: Event)
    requires SameFor(chat, s, t) && ChatOf(e) != chat && Possible(s, e)
    ensures SameFor(chat, Step(s, e), t)
  {
  }

  /** What a chat's calls see is what they would see if the chat were alone. */
  lemma {:induction false} ChatsAreIsolated(events: seq<Event>, chat: ChatID)
    requires Valid(events)
    ensures Valid(Only(events, chat)) && SameFor(chat, Run(events), Run(Only(events, chat)))
  {
    if events != [] {
      ChatsAreIsolated(Before(events), chat);
      var alone := Only(Before(events), chat);
      var s, t, e := Run(Before(events)), Run(alone), LastOf(events);
      if ChatOf(e) == chat {
        OwnStep(chat, s, t, e);
        RunExtends(alone, e);
      } else {
        ForeignStep(chat, s, t, e);
      }
    }
  }

  // ---- Sending the reply ----

  function Flatten(chunks: seq<string>): string {
    if chunks == [] then "" else Flatten(Before(chunks)) + LastOf(chunks)
  }

  /** What has been sent of the text before position `i`. */
  ghost predicate SentUpTo(text: string, sent: seq<string>, i: nat) {
    && i == 4000 * |sent| && i < |text| + 4000
    && Flatten(sent) == text[..if i < |text| then i else |text|]
    && (forall j :: 0 <= j < |sent| ==> Stands(text, 4000 * j, sent[j]) && 0 < |sent[j]| <= 4000)
    && (forall j :: 0 <= j < |sent| && (j < |sent| - 1 || i <= |text|) ==> |sent[j]| == 4000)
  }

  lemma OneMoreChunk(text: string, sent: seq<string>, i: nat, end: nat)
    requires SentUpTo(text, sent, i) && i < |text| && end == if i + CHUNK < |text| then i + CHUNK else |text|
    ensures SentUpTo(text, sent + [text[i..end]], i + CHUNK)
  {
    var chunk := text[i..end];
    assert Before(sent + [chunk]) == sent && LastOf(sent + [chunk]) == chunk;
    assert text[..i] + chunk == text[..end];
    assert Stands(text, i, chunk);
  }

  /** `send_chunks`: the messages sent make up the text, all but the last of full length. */
  method SendChunks(text: string) returns (sent: seq<string>)
    ensures Flatten(sent) == text
    ensures forall i :: 0 <= i < |sent| ==> 0 < |sent[i]| <= 4000
    ensures forall i :: 0 <= i < |sent| - 1 ==> |sent[i]| == 4000
    ensures forall i :: 0 <= i < |sent| ==> Stands(text, 4000 * i, sent[i])
  {
    sent := [];
    var i := 0;
    while i < |text|
      invariant 0 <= i && SentUpTo(text, sent, i)
    {
      var end := if i + CHUNK < |text| then i + CHUNK else |text|;
      OneMoreChunk(text, sent, i, end);
      sent := sent + [text[i..end]];
      i := i + CHUNK;
    }
  }
}
