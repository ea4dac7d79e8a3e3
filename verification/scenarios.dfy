/**
 * Properties of the reply/edit binding that span several calls, stated as
 * client methods over freshly created commands: replying at most once,
 * retrying after a rejected reply, and the rebinding done by `edit`.
 */
module Scenarios {
  import opened Wrappers
  import opened Strings
  import opened Platform
  import opened Commands

  /**
   * Two replies to one text command: the first succeeds exactly when the
   * platform's reply was written by the bot, and then the command's response
   * is that handle and the second reply throws "already replied". When the
   * first reply was rejected by the author guard, nothing was bound and a
   * second, valid reply succeeds.
   */
  method ReplyTwiceToMessage(message: Msg, prefixLength: int, first: Result<Msg, string>, second: Result<Msg, string>)
    returns (r1: Result<ResponseMessage, Error>, r2: Result<ResponseMessage, Error>)
    requires !IsBlank(Substring(message.content, prefixLength))
    ensures r1.Success? <==> first.Success? && first.value.authorId == first.value.clientUserId
    ensures r1.Success? ==>
      && r2 == Failure(AlreadyReplied)
      && r1.value.commandMessage.origin == TextMessage(message)
      && r1.value.commandMessage.responseMessage == r1.value
    ensures r1.Failure? && second.Success? ==>
      (r2.Success? <==> second.value.authorId == second.value.clientUserId)
  {
    var created := CommandMessage.CreateFromMessage(message, prefixLength);
    var cm := created.value;
    r1 := cm.Reply(first);
    r2 := cm.Reply(second);
  }

  /**
   * Two replies to one slash command: once the platform has answered the
   * first reply, the second throws "already replied", even when the first
   * was rejected by the author guard and nothing was bound.
   */
  method ReplyTwiceToInteraction(interaction: Interaction, first: Result<Msg, string>, second: Result<Msg, string>)
    returns (r1: Result<ResponseMessage, Error>, r2: Result<ResponseMessage, Error>)
    ensures r1.Success? <==> first.Success? && first.value.authorId == interaction.clientUserId
    ensures first.Success? ==> r2 == Failure(AlreadyReplied)
    ensures first.Failure? && second.Success? ==>
      (r2.Success? <==> second.value.authorId == interaction.clientUserId)
    ensures r1.Success? ==>
      && r1.value.origin == InteractionReply(interaction)
      && r1.value.commandMessage.responseMessage == r1.value
  {
    var cm := CommandMessage.CreateFromInteraction(interaction);
    r1 := cm.Reply(first);
    r2 := cm.Reply(second);
  }

  /**
   * Reply to a text command, then edit the reply. A successful edit gives a
   * new handle bound to the same command, and the command's response becomes
   * that new handle; the first handle still wraps the first reply. A failed
   * edit leaves the first handle bound.
   */
  method ReplyThenEdit(message: Msg, prefixLength: int, sent: Result<Msg, string>, edited: Result<Msg, string>)
    returns (reply: Result<ResponseMessage, Error>, edit: Result<ResponseMessage, Error>)
    requires !IsBlank(Substring(message.content, prefixLength))
    ensures reply.Success? && edited.Success? ==>
      (edit.Success? <==> edited.value.authorId == edited.value.clientUserId)
    ensures reply.Success? && edit.Success? ==>
      && edit.value != reply.value
      && edit.value.origin == MessageReply
      && edit.value.commandMessage == reply.value.commandMessage
      && edit.value.commandMessage.responseMessage == edit.value
      && sent.Success? && reply.value.message == sent.value
    ensures reply.Success? && edit.Failure? ==>
      reply.value.commandMessage.responseMessage == reply.value
    ensures reply.Failure? ==> edit == reply
  {
    var created := CommandMessage.CreateFromMessage(message, prefixLength);
    var cm := created.value;
    assert cm.Valid() && !cm.HasReplied();
    reply := cm.Reply(sent);
    if reply.Failure? {
      return reply, reply;
    }
    var handle := reply.value;
    assert handle.commandMessage == cm && handle.origin == MessageReply;
    assert sent.Success? && handle.message == sent.value && cm.responseMessage == handle;
    edit := handle.Edit(edited);
    assert edit.Success? ==> edit.value != handle && cm.responseMessage == edit.value;
  }

  /**
   * Fetching the reply of a slash command gives a message-origin handle bound
   * to the same command, and the command keeps the reply as its response.
   */
  method FetchAfterInteractionReply(interaction: Interaction, sent: Result<Msg, string>, fetched: Result<Msg, string>)
    returns (reply: Result<ResponseMessage, Error>, copy: Result<ResponseMessage, Error>)
    ensures reply.Success? && copy.Success? ==>
      && reply.value.origin == InteractionReply(interaction)
      && copy.value.origin == MessageReply
      && copy.value.commandMessage == reply.value.commandMessage
      && reply.value.commandMessage.responseMessage == reply.value
    ensures reply.Failure? ==> copy == reply
  {
    var cm := CommandMessage.CreateFromInteraction(interaction);
    reply := cm.Reply(sent);
    if reply.Failure? {
      return reply, reply;
    }
    copy := reply.value.Fetch(fetched);
  }
}
