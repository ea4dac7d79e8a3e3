/**
 * The two adapter classes of src/CommandMessage.ts and src/ResponseMessage.ts.
 * A CommandMessage wraps the text message or the slash command interaction a
 * user sent; replying to it gives a ResponseMessage, which wraps the bot's
 * reply and points back to the CommandMessage. Editing a response gives a new
 * ResponseMessage and rebinds the CommandMessage to it.
 *
 * Each platform call (sending a reply, editing, fetching, suppressing embeds)
 * is a parameter `Result<Msg, string>`: the message the platform answered
 * with, or the reason it failed, which is passed through unchanged.
 */
module Commands {
  import opened Wrappers
  import opened Strings
  import opened Resolver
  import opened Platform

  /** `prefixLength` when `createFromMessage` is called without one. */
  const DefaultPrefixLength: int := 1

  /** What the operations of this layer throw. */
  datatype Error =
    | AlreadyReplied                   // "Target message was already replied"
    | NotResponseMessage               // "Message is not the response message"
    | Unresolved(cause: ResolveError)  // the TypeError of `resolveCommandMessage`
    | PlatformFailure(reason: string)  // a failed platform call, passed through

  /** Where a command came from: the `isMessage` flag together with the field it selects. */
  datatype Origin = TextMessage(message: Msg) | SlashCommand(interaction: Interaction)

  /** How a response was produced: by replying to a message, or by editing an interaction's reply. */
  datatype ReplyOrigin = MessageReply | InteractionReply(interaction: Interaction)

  /** The kind of response a command of the given origin gets. */
  function ReplyOriginOf(o: Origin): ReplyOrigin {
    match o
    case TextMessage(_) => MessageReply
    case SlashCommand(itx) => InteractionReply(itx)
  }

  /**
   * The author guard of both ResponseMessage factories, as the source writes
   * it: a message-origin response must be written by its own client's user,
   * an interaction-origin response by the interaction's client user. The
   * ensures clauses spell the condition out per origin; what it implies is
   * proved in `AuthorGuardsAgree`, `Reply`, `Edit` and `Fetch`.
   */
  predicate AuthoredByBot(ro: ReplyOrigin, m: Msg): (b: bool)
    ensures ro.MessageReply? ==> (b <==> m.authorId == m.clientUserId)
    ensures ro.InteractionReply? ==> (b <==> m.authorId == ro.interaction.clientUserId)
  {
    match ro
    case MessageReply => m.authorId == m.clientUserId
    case InteractionReply(itx) => m.authorId == itx.clientUserId
  }

  /**
   * The two author guards are one check when the message is held by the
   * interaction's own bot client, and they part ways only when the clients
   * differ.
   */
  lemma AuthorGuardsAgree(itx: Interaction, m: Msg)
    ensures m.clientUserId == itx.clientUserId ==>
              (AuthoredByBot(InteractionReply(itx), m) <==> AuthoredByBot(MessageReply, m))
    ensures m.clientUserId != itx.clientUserId ==>
              !(AuthoredByBot(InteractionReply(itx), m) && AuthoredByBot(MessageReply, m))
  {
  }

  /** `content` of an interaction: "/", the command name, a space and the argument values, trimmed. */
  function InteractionContent(itx: Interaction): (r: string)
    ensures |r| > 0 && r[0] == '/'
  {
    var line := "/" + itx.commandName + " " + Join(StringifyAll(itx.args));
    assert line[0] == '/';
    Trim(line)
  }

  class CommandMessage {
    const origin: Origin
    const command: string
    const options: seq<string>
    const rawOptions: string
    var interactionReplied: bool
    var responseMessage: ResponseMessage?

    constructor (origin: Origin, command: string, options: seq<string>, rawOptions: string)
      ensures this.origin == origin && this.command == command
      ensures this.options == options && this.rawOptions == rawOptions
      ensures !interactionReplied && responseMessage == null
    {
      this.origin := origin;
      this.command := command;
      this.options := options;
      this.rawOptions := rawOptions;
      interactionReplied := false;
      responseMessage := null;
    }

    /**
     * The parsed fields agree with the origin: a message-origin command is a
     * resolved command line; an interaction-origin command carries the
     * command name and the stringified argument values.
     */
    ghost predicate FieldsValid() {
      match origin
      case TextMessage(_) => WellFormed(Resolved(command, options, rawOptions))
      case SlashCommand(itx) =>
        && command == itx.commandName
        && options == StringifyAll(itx.args)
        && rawOptions == Join(options)
    }

    /** A bound response points back to this command. */
    ghost predicate Bound()
      reads this
    {
      responseMessage != null ==> responseMessage.commandMessage == this
    }

    /**
     * The object invariant: the parsed fields agree with the origin, a
     * message-origin command never sets the interaction flag, and a bound
     * response points back to this command.
     */
    ghost predicate Valid()
      reads this
    {
      FieldsValid() && (origin.TextMessage? ==> !interactionReplied) && Bound()
    }

    /**
     * The guard `reply` checks, as the source writes it: a bound response for
     * a message, the replied flag for an interaction. The ensures clauses
     * spell it out per origin; what it implies is proved in `Reply` and the
     * scenarios.
     */
    predicate HasReplied(): (b: bool)
      reads this
      ensures origin.TextMessage? ==> (b <==> responseMessage != null)
      ensures origin.SlashCommand? ==> (b <==> interactionReplied)
    {
      if origin.TextMessage? then responseMessage != null else interactionReplied
    }

    /**
     * `createFromMessage`: resolve the message content with the identity
     * normaliser; a content with no token after the prefix throws.
     */
    static method CreateFromMessage(message: Msg, prefixLength: int := DefaultPrefixLength)
      returns (r: Result<CommandMessage, Error>)
      ensures r.Failure? <==> IsBlank(Substring(message.content, prefixLength))
      ensures r.Failure? ==> r.error == Unresolved(UndefinedCommand)
      ensures r.Success? ==>
        && fresh(r.value) && r.value.Valid()
        && r.value.origin == TextMessage(message)
        && r.value.responseMessage == null
        && ResolveCommandMessage(message.content, prefixLength)
           == Success(Resolved(r.value.command, r.value.options, r.value.rawOptions))
    {
      var resolved := ResolveCommandMessage(message.content, prefixLength);
      match resolved
      case Failure(e) =>
        r := Failure(Unresolved(e));
      case Success(p) =>
        var me := new CommandMessage(TextMessage(message), p.command, p.options, p.rawOptions);
        r := Success(me);
    }

    /** `createFromMessageWithParsed`: a message-origin command that takes already parsed fields. */
    static method CreateFromMessageWithParsed(message: Msg, command: string, options: seq<string>, rawOptions: string)
      returns (me: CommandMessage)
      ensures fresh(me) && me.origin == TextMessage(message)
      ensures me.command == command && me.options == options && me.rawOptions == rawOptions
      ensures me.responseMessage == null && !me.interactionReplied
      ensures WellFormed(Resolved(command, options, rawOptions)) ==> me.Valid()
    {
      me := new CommandMessage(TextMessage(message), command, options, rawOptions);
    }

    /**
     * `createFromInteraction`: the command is the interaction's command name
     * (not lower-cased), the options are the argument values as strings.
     */
    static method CreateFromInteraction(interaction: Interaction) returns (me: CommandMessage)
      ensures fresh(me) && me.Valid() && me.origin == SlashCommand(interaction)
      ensures me.command == interaction.commandName
      ensures me.options == StringifyAll(interaction.args) && me.rawOptions == Join(me.options)
      ensures me.responseMessage == null && !me.interactionReplied
    {
      var options := StringifyAll(interaction.args);
      me := new CommandMessage(SlashCommand(interaction), interaction.commandName, options, Join(options));
    }

    /**
     * `reply`: fails if already replied; otherwise sends the reply, wraps the
     * platform's answer as a response and binds it. For an interaction the
     * replied flag is set before the response is built, so it stays set even
     * when the author guard then throws; for a message nothing is bound then
     * and a later reply may try again.
     */
    method Reply(sent: Result<Msg, string>) returns (r: Result<ResponseMessage, Error>)
      requires Valid()
      modifies this
      ensures Valid()
      ensures old(HasReplied()) ==> r == Failure(AlreadyReplied) && unchanged(this)
      ensures !old(HasReplied()) && sent.Failure? ==>
        r == Failure(PlatformFailure(sent.error)) && unchanged(this)
      ensures !old(HasReplied()) && sent.Success? ==>
        && (r.Success? <==> AuthoredByBot(ReplyOriginOf(origin), sent.value))
        && interactionReplied == origin.SlashCommand?
      ensures !old(HasReplied()) && sent.Success? && r.Failure? ==>
        r.error == NotResponseMessage && responseMessage == old(responseMessage)
      ensures r.Success? ==>
        && fresh(r.value) && r.value.Valid()
        && r.value.origin == ReplyOriginOf(origin)
        && r.value.message == sent.value
        && r.value.commandMessage == this
        && responseMessage == r.value
        && HasReplied()
    {
      if origin.TextMessage? {
        if responseMessage != null {
          return Failure(AlreadyReplied);
        }
        match sent
        case Failure(reason) =>
          r := Failure(PlatformFailure(reason));
        case Success(msg) =>
          r := ResponseMessage.CreateFromMessage(msg, this);
          if r.Success? {
            responseMessage := r.value;
          }
      } else {
        if interactionReplied {
          return Failure(AlreadyReplied);
        }
        match sent
        case Failure(reason) =>
          r := Failure(PlatformFailure(reason));
        case Success(mes) =>
          interactionReplied := true;
          r := ResponseMessage.CreateFromInteraction(origin.interaction, mes, this);
          if r.Success? {
            responseMessage := r.value;
          }
      }
    }

    /**
     * `suppressEmbeds`: for a message, a new command over the platform's
     * updated message with the same parsed fields and nothing bound; for an
     * interaction, this same command.
     */
    method SuppressEmbeds(updated: Result<Msg, string>) returns (r: Result<CommandMessage, Error>)
      ensures origin.SlashCommand? ==> r == Success(this)
      ensures origin.TextMessage? && updated.Failure? ==> r == Failure(PlatformFailure(updated.error))
      ensures origin.TextMessage? && updated.Success? ==>
        && r.Success? && fresh(r.value)
        && r.value.origin == TextMessage(updated.value)
        && r.value.command == command && r.value.options == options && r.value.rawOptions == rawOptions
        && r.value.responseMessage == null && !r.value.interactionReplied
      ensures old(Valid()) && r.Success? ==> r.value.Valid()
    {
      if origin.TextMessage? {
        match updated
        case Failure(reason) =>
          r := Failure(PlatformFailure(reason));
        case Success(msg) =>
          var me := CreateFromMessageWithParsed(msg, command, options, rawOptions);
          r := Success(me);
      } else {
        r := Success(this);
      }
    }

    /** `content`: the message text, or the synthesised "/name values" of an interaction. */
    function Content(): (r: string)
      ensures origin.TextMessage? ==> r == origin.message.content
      ensures origin.SlashCommand? ==> |r| > 0 && r[0] == '/'
    {
      match origin
      case TextMessage(m) => m.content
      case SlashCommand(itx) => InteractionContent(itx)
    }

    /** `reactions`: those of the message; null (None) for an interaction. */
    function Reactions(): (r: Option<seq<string>>)
      ensures r.Some? <==> origin.TextMessage?
      ensures r.Some? ==> r.value == origin.message.reactions
    {
      if origin.TextMessage? then Some(origin.message.reactions) else None
    }

    /** `url`: that of the message; null (None) for an interaction. */
    function Url(): (r: Option<string>)
      ensures r.Some? <==> origin.TextMessage?
      ensures r.Some? ==> r.value == origin.message.url
    {
      if origin.TextMessage? then Some(origin.message.url) else None
    }

    /** `attachments`: those of the message; an empty collection for an interaction. */
    function Attachments(): (r: map<string, Attachment>)
      ensures origin.TextMessage? ==> r == origin.message.attachments
      ensures origin.SlashCommand? ==> r == map[]
    {
      if origin.TextMessage? then origin.message.attachments else map[]
    }
  }

  class ResponseMessage {
    const origin: ReplyOrigin
    const message: Msg
    const commandMessage: CommandMessage

    constructor (origin: ReplyOrigin, message: Msg, commandMessage: CommandMessage)
      ensures this.origin == origin && this.message == message && this.commandMessage == commandMessage
    {
      this.origin := origin;
      this.message := message;
      this.commandMessage := commandMessage;
    }

    /** What both factories guarantee: the wrapped message was written by the bot. */
    predicate Valid() {
      AuthoredByBot(origin, message)
    }

    /** `createFromMessage`: throws unless the message's author is its client's user. */
    static method CreateFromMessage(message: Msg, commandMessage: CommandMessage)
      returns (r: Result<ResponseMessage, Error>)
      ensures r.Failure? <==> message.authorId != message.clientUserId
      ensures r.Failure? ==> r.error == NotResponseMessage
      ensures r.Success? ==>
        && fresh(r.value) && r.value.Valid()
        && r.value.origin == MessageReply
        && r.value.message == message
        && r.value.commandMessage == commandMessage
    {
      if message.authorId != message.clientUserId {
        return Failure(NotResponseMessage);
      }
      var me := new ResponseMessage(MessageReply, message, commandMessage);
      r := Success(me);
    }

    /** `createFromInteraction`: throws unless the message's author is the interaction's client user. */
    static method CreateFromInteraction(interaction: Interaction, message: Msg, commandMessage: CommandMessage)
      returns (r: Result<ResponseMessage, Error>)
      ensures r.Failure? <==> message.authorId != interaction.clientUserId
      ensures r.Failure? ==> r.error == NotResponseMessage
      ensures r.Success? ==>
        && fresh(r.value) && r.value.Valid()
        && r.value.origin == InteractionReply(interaction)
        && r.value.message == message
        && r.value.commandMessage == commandMessage
    {
      if message.authorId != interaction.clientUserId {
        return Failure(NotResponseMessage);
      }
      var me := new ResponseMessage(InteractionReply(interaction), message, commandMessage);
      r := Success(me);
    }

    /**
     * `edit`: the platform edits the reply; its answer becomes a new response
     * of the same origin, bound to the same command, and that command's
     * response slot is overwritten with it. A failure leaves the slot alone.
     */
    method Edit(edited: Result<Msg, string>) returns (r: Result<ResponseMessage, Error>)
      modifies commandMessage`responseMessage
      ensures edited.Failure? ==> r == Failure(PlatformFailure(edited.error))
      ensures edited.Success? ==> (r.Success? <==> AuthoredByBot(origin, edited.value))
      ensures edited.Success? && r.Failure? ==> r.error == NotResponseMessage
      ensures r.Failure? ==> commandMessage.responseMessage == old(commandMessage.responseMessage)
      ensures r.Success? ==>
        && fresh(r.value) && r.value.Valid()
        && r.value.origin == origin
        && r.value.message == edited.value
        && r.value.commandMessage == commandMessage
        && commandMessage.responseMessage == r.value
      ensures old(commandMessage.Bound()) ==> commandMessage.Bound()
    {
      match edited
      case Failure(reason) =>
        r := Failure(PlatformFailure(reason));
      case Success(msg) =>
        match origin {
          case MessageReply =>
            r := CreateFromMessage(msg, commandMessage);
          case InteractionReply(itx) =>
            r := CreateFromInteraction(itx, msg, commandMessage);
        }
        if r.Success? {
          commandMessage.responseMessage := r.value;
        }
    }

    /**
     * `fetch`: the platform's fresh copy of the message, wrapped as a
     * message-origin response bound to the same command, whatever this
     * response's origin; the command's response slot is not touched.
     */
    method Fetch(fetched: Result<Msg, string>) returns (r: Result<ResponseMessage, Error>)
      ensures fetched.Failure? ==> r == Failure(PlatformFailure(fetched.error))
      ensures fetched.Success? ==> (r.Success? <==> fetched.value.authorId == fetched.value.clientUserId)
      ensures r.Success? ==>
        && fresh(r.value) && r.value.Valid()
        && r.value.origin == MessageReply
        && r.value.message == fetched.value
        && r.value.commandMessage == commandMessage
    {
      match fetched
      case Failure(reason) =>
        r := Failure(PlatformFailure(reason));
      case Success(msg) =>
        r := CreateFromMessage(msg, commandMessage);
    }
  }

  /** With no arguments, an interaction's content is "/" followed by the command name. */
  lemma InteractionContentWithoutOptions(itx: Interaction)
    requires itx.args == []
    requires itx.commandName == "" || !IsJsWhitespace(itx.commandName[|itx.commandName| - 1])
    ensures InteractionContent(itx) == "/" + itx.commandName
  {
    var head := "/" + itx.commandName;
    var line := head + " " + Join(StringifyAll(itx.args));
    assert StringifyAll(itx.args) == [];
    assert line == head + " ";
    assert TrimStart(line) == line;
    assert line[..|line| - 1] == head;
    assert TrimEnd(line) == TrimEnd(head);
    assert TrimEnd(head) == head;
  }

  /**
   * The raw options of an interaction need not tokenize back to its options:
   * a string argument may hold a space, which the tokenizer would split.
   */
  lemma InteractionOptionsNeedNotRoundTrip()
    ensures var itx := Interaction("1", "bot", "say", [StringValue("a b")]);
            var options := StringifyAll(itx.args);
            Tokens(Join(options)) != options
  {
    var options := StringifyAll([StringValue("a b")]);
    assert options == ["a b"];
    assert Join(options) == "a b";
    TokensOfJoin(["a", "b"]);
    assert Join(["a", "b"]) == "a b";
  }
}
