/** The bot's two event handlers over its state: the message store (an
    ordered list of texts for the panel), the trigger table (keyword to
    response) and the cooldown gate. The stores are held in memory; the bot
    starts with both empty, which is what a missing or unreadable data file
    amounts to. */
module Bot {
  import opened Text
  import opened Cooldown
  import opened Triggers
  import opened Panel

  /** A chat message as the message handler sees it. */
  datatype ChatMessage = ChatMessage(author: UserId, fromBot: bool, isAdmin: bool, content: string)

  /** The six registered slash commands with their arguments. */
  datatype Command =
    | HelpCommand
    | TriggerCommand(trigger: string, response: string)
    | TriggerListCommand
    | AddCommand(content: string)
    | ClearCommand
    | PanelCommand

  datatype InteractionKind = SlashCommand(command: Command) | ButtonPress(customId: string) | OtherInteraction

  datatype Interaction = Interaction(isAdmin: bool, kind: InteractionKind)

  /** Replies seen only by the invoking user. */
  datatype Reply =
    | AdminRequired
    | HelpText
    | TriggerRegistered(trigger: string)
    | TriggerIndex(list: TriggerList)
    | Saved(count: nat)
    | ClearedAll
    | PanelView(panel: PanelReply)

  datatype Effect =
    | NoEffect
    | Ephemeral(reply: Reply)
    | CooldownNotice(waitMs: nat)  // a reply to the trigger message, retracted after five seconds
    | ChannelSend(text: string)

  /** What a slash command from an administrator does to the stores
      (`msgs`, `trigs` before; `msgs'`, `trigs'` after) and how it answers. */
  ghost predicate CommandOutcome(c: Command, msgs: seq<string>, trigs: map<string, string>,
                                 msgs': seq<string>, trigs': map<string, string>, effect: Effect)
  {
    match c
    case HelpCommand =>
      msgs' == msgs && trigs' == trigs && effect == Ephemeral(HelpText)
    case TriggerCommand(k, r) =>
      msgs' == msgs && trigs' == trigs[k := r] && effect == Ephemeral(TriggerRegistered(k))
    case TriggerListCommand =>
      && msgs' == msgs && trigs' == trigs
      && effect.Ephemeral? && effect.reply.TriggerIndex? && IsListingOf(trigs, effect.reply.list)
    case AddCommand(content) =>
      msgs' == msgs + [content] && trigs' == trigs && effect == Ephemeral(Saved(|msgs'|))
    case ClearCommand =>
      msgs' == [] && trigs' == map[] && effect == Ephemeral(ClearedAll)
    case PanelCommand =>
      && msgs' == msgs && trigs' == trigs
      && effect.Ephemeral? && effect.reply.PanelView?
      && (msgs == [] <==> effect.reply.panel == NoData)
      && (effect.reply.panel.Rows? ==> PanelLayout(msgs, effect.reply.panel.rows))
  }

  class Bot {
    var messages: seq<string>
    var triggers: map<string, string>
    const gate: CooldownGate

    constructor ()
      ensures messages == [] && triggers == map[]
      ensures fresh(gate) && gate.lastUse == map[]
    {
      messages := [];
      triggers := map[];
      gate := new CooldownGate();
    }

    /** Registers `response` for `trigger`; a later registration of the same
        keyword replaces the earlier one. */
    method Register(trigger: string, response: string)
      modifies this
      ensures triggers == old(triggers)[trigger := response] && messages == old(messages)
      ensures trigger in triggers && triggers[trigger] == response
      ensures forall k :: k != trigger ==> (k in triggers <==> k in old(triggers))
      ensures forall k :: k != trigger && k in old(triggers) ==> triggers[k] == old(triggers)[k]
    {
      triggers := triggers[trigger := response];
    }

    /** Appends a message to the store and reports how many there are. */
    method Append(content: string) returns (count: nat)
      modifies this
      ensures messages == old(messages) + [content] && triggers == old(triggers)
      ensures count == |messages| == |old(messages)| + 1
      ensures forall k :: 0 <= k < |old(messages)| ==> messages[k] == old(messages)[k]
      ensures messages[count - 1] == content
    {
      messages := messages + [content];
      count := |messages|;
    }

    /** Empties both stores. */
    method ClearAll()
      modifies this
      ensures messages == [] && triggers == map[]
    {
      messages := [];
      triggers := map[];
    }

    /** Runs a slash command of an administrator. */
    method Execute(c: Command) returns (effect: Effect)
      modifies this
      ensures CommandOutcome(c, old(messages), old(triggers), messages, triggers, effect)
    {
      match c
      case HelpCommand =>
        effect := Ephemeral(HelpText);
      case TriggerCommand(k, r) =>
        Register(k, r);
        effect := Ephemeral(TriggerRegistered(k));
      case TriggerListCommand =>
        var list := ListTriggers(triggers);
        effect := Ephemeral(TriggerIndex(list));
      case AddCommand(content) =>
        var count := Append(content);
        effect := Ephemeral(Saved(count));
      case ClearCommand =>
        ClearAll();
        effect := Ephemeral(ClearedAll);
      case PanelCommand =>
        var panel := RenderPanel(messages);
        effect := Ephemeral(PanelView(panel));
    }

    /** The interaction handler: commands and button presses are for
        administrators only; a press on a panel button re-sends the message
        it names; other interactions are ignored. */
    method OnInteraction(i: Interaction) returns (effect: Effect)
      modifies this
      ensures !i.isAdmin && !i.kind.OtherInteraction? ==>
        effect == Ephemeral(AdminRequired) && messages == old(messages) && triggers == old(triggers)
      ensures i.kind.OtherInteraction? ==>
        effect == NoEffect && messages == old(messages) && triggers == old(triggers)
      ensures i.isAdmin && i.kind.ButtonPress? ==>
        && messages == old(messages) && triggers == old(triggers)
        && effect == match Click(messages, i.kind.customId)
                     case Some(text) => ChannelSend(text)
                     case None => NoEffect
      ensures i.isAdmin && i.kind.SlashCommand? ==>
        CommandOutcome(i.kind.command, old(messages), old(triggers), messages, triggers, effect)
    {
      if !i.isAdmin && !i.kind.OtherInteraction? {
        return Ephemeral(AdminRequired);
      }
      match i.kind
      case OtherInteraction =>
        effect := NoEffect;
      case SlashCommand(c) =>
        effect := Execute(c);
      case ButtonPress(customId) =>
        match Click(messages, customId)
        case Some(text) => effect := ChannelSend(text);
        case None => effect := NoEffect;
    }

    /** The chat message handler: `m!<keyword>` with a registered non-empty
        response is answered with that response, unless the gate turns a
        non-administrator away; everything else is ignored and leaves the
        gate as it was. `now` is the clock reading in milliseconds. */
    method OnMessage(msg: ChatMessage, now: nat) returns (effect: Effect)
      modifies gate
      ensures msg.fromBot || Dispatch(triggers, msg.content).None? ==>
        effect == NoEffect && gate.lastUse == old(gate.lastUse)
      ensures !msg.fromBot && Dispatch(triggers, msg.content).Some? ==>
        var g := Step(old(gate.lastUse), msg.author, msg.isAdmin, now);
        && gate.lastUse == g.after
        && effect == match g.decision
                     case Denied(waitMs) => CooldownNotice(waitMs)
                     case Allowed => ChannelSend(Dispatch(triggers, msg.content).value)
    {
      effect := NoEffect;
      if msg.fromBot {
        return;
      }
      if StartsWith(msg.content, TRIGGER_PREFIX) {
        var word := ReplaceFirst(msg.content, TRIGGER_PREFIX, "");
        KeywordDropsPrefix(msg.content);
        if !(word in triggers && triggers[word] != "") {
          return;
        }
        var d := gate.Allow(msg.author, msg.isAdmin, now);
        match d
        case Denied(waitMs) =>
          effect := CooldownNotice(waitMs);
        case Allowed =>
          effect := ChannelSend(triggers[word]);
      }
    }
  }

  /** A client of the handlers: two stored messages, the panel they give,
      and a click on its second button. */
  method PanelScenario()
  {
    var bot := new Bot();
    var e := bot.OnInteraction(Interaction(true, SlashCommand(AddCommand("hello"))));
    e := bot.OnInteraction(Interaction(true, SlashCommand(AddCommand("a longer message"))));
    assert e == Ephemeral(Saved(2));
    assert bot.messages == ["hello", "a longer message"];

    e := bot.OnInteraction(Interaction(false, SlashCommand(ClearCommand)));
    assert e == Ephemeral(AdminRequired);
    PanelAndClick(bot);
  }

  /** The panel of the two messages: labels `hell...` and `a lo...`. */
  method PanelAndClick(bot: Bot)
    requires bot.messages == ["hello", "a longer message"]
    modifies bot
  {
    var e := bot.OnInteraction(Interaction(true, SlashCommand(PanelCommand)));
    var rows := e.reply.panel.rows;
    assert |rows| == 1;
    assert rows[..0] == [];
    assert |rows[0]| == |Flatten(rows)| == 2;
    RowHoldsConsecutiveMessages(bot.messages, rows, 0, 0);
    RowHoldsConsecutiveMessages(bot.messages, rows, 0, 1);
    assert rows[0][0].caption == "hell...";
    assert rows[0][1].caption == "a lo...";
    ClickSecond(bot, rows[0][1].customId);
  }

  /** A click on the button addressed to the second message re-sends it. */
  method ClickSecond(bot: Bot, customId: string)
    requires bot.messages == ["hello", "a longer message"]
    requires ParseButtonId(customId) == Some(1)
    modifies bot
  {
    var e := bot.OnInteraction(Interaction(true, ButtonPress(customId)));
    assert e == ChannelSend("a longer message");
  }

  /** A client of the handlers: a trigger used twice inside the window by
      one user, by an administrator meanwhile, and again after the window. */
  method TriggerScenario()
  {
    var bot := new Bot();
    var e := bot.OnInteraction(Interaction(true, SlashCommand(TriggerCommand("hi", "hello there"))));
    var cmd := "m!hi";
    assert StartsWith(cmd, TRIGGER_PREFIX) && cmd[2..] == "hi";
    e := bot.OnMessage(ChatMessage("42", false, false, cmd), 1000);
    assert e == ChannelSend("hello there");
    e := bot.OnMessage(ChatMessage("42", false, false, cmd), 4000);
    assert e == CooldownNotice(7000);
    e := bot.OnMessage(ChatMessage("7", false, true, cmd), 4000);
    assert e == ChannelSend("hello there");
    e := bot.OnMessage(ChatMessage("42", false, false, cmd), 11000);
    assert e == ChannelSend("hello there");
  }

  /** A client of the handlers: after a clear, the list and the panel have
      nothing to show and an old button does nothing. */
  method ClearScenario(content: string, trigger: string, response: string)
  {
    var bot := new Bot();
    var e := bot.OnInteraction(Interaction(true, SlashCommand(AddCommand(content))));
    e := bot.OnInteraction(Interaction(true, SlashCommand(TriggerCommand(trigger, response))));
    e := bot.OnInteraction(Interaction(true, SlashCommand(ClearCommand)));
    e := bot.OnInteraction(Interaction(true, SlashCommand(TriggerListCommand)));
    assert e == Ephemeral(TriggerIndex(NoTriggers));
    e := bot.OnInteraction(Interaction(true, SlashCommand(PanelCommand)));
    assert e == Ephemeral(PanelView(NoData));
    e := bot.OnInteraction(Interaction(true, ButtonPress(ButtonId(0))));
    assert e == NoEffect;
  }
}
