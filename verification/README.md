# djs-command-resolver in Dafny

This project models the core of djs-command-resolver. That library puts one interface over the two ways a chat command can reach a bot: a text message such as `!play some song`, or a slash-command interaction. It also puts one interface over the bot's reply. The model has two parts.

- **The command tokenizer.** `parseCommand` and `resolveCommandMessage` take the message content and normalise it (identity by default). They cut off `prefixLength` characters with JavaScript `substring` semantics, split on the single character `" "` and drop empty pieces. The first token, lower-cased, is the `command`. The rest are the `options`, and `rawOptions` is the options joined by single spaces. This part is pure: modules `Strings` and `Resolver`, all functions and lemmas.
- **The reply/edit binding.** A `CommandMessage` is built from a message or from an interaction. `reply` may be called once. It gives a `ResponseMessage`, and the command's response slot is bound to it. `edit` on a response gives a new `ResponseMessage` and overwrites the command's slot with it. `fetch` gives a message-origin response and does not rebind. Both classes are Dafny classes in module `Commands`. Fields that are never reassigned after construction are `const`. The replied flag and the response slot are `var` fields, changed by methods with `modifies` clauses. Module `Scenarios` states the properties that span several calls as client methods.

Platform objects (module `Platform`) are values: a message has an id, author id, client user id, content, url, reactions and attachments; an interaction has an id, client user id, command name and argument values. Every platform call is a parameter of type `Result<Msg, string>`: the message the platform answered with, or the reason it failed. Such a failure is passed through as `PlatformFailure`. Thrown errors are `Failure` results: `AlreadyReplied`, `NotResponseMessage`, and `Unresolved(UndefinedCommand)` for the `TypeError` thrown when no command token is left.

Some behaviour of the code is worth stating plainly:
- Only `" "` separates tokens (src/CommandMessage.ts:238). Tabs and newlines stay inside tokens.
- A content that is blank after the prefix does not give an empty command. `command` is `undefined` and `toLowerCase` throws at src/CommandMessage.ts:251, so `ResolveCommandMessage` returns `Failure(UndefinedCommand)` and `CreateFromMessage` fails.
- `reply` has two different guards. A message-origin command checks its response slot. An interaction-origin command checks `_interactionReplied`, and that flag is set before the author check. So after an interaction reply that the author check rejects, no further reply is possible. After a rejected message reply, a retry can succeed.
- An interaction's `command` is its command name as given. It is not lower-cased.

## Model

| member | source | states |
|---|---|---|
| `Strings.Substring` | src/CommandMessage.ts:237 | the result is the suffix of the string from the start index clamped to [0, length]; a start at or past the end gives "" and a negative start gives the whole string |
| `Strings.Split` | src/CommandMessage.ts:238 | `split(" ")` gives at least one piece, and no piece contains a space |
| `Strings.NonEmpty` | src/CommandMessage.ts:238 | the filter gives only non-empty pieces, never more pieces than there were, and only space-free pieces when all input pieces are space-free |
| `Strings.NonEmptyMembers` | src/CommandMessage.ts:238 | a string is in the filtered list if and only if it is a non-empty piece of the input |
| `Strings.NonEmptySingleton` | src/CommandMessage.ts:238 | filtering a single piece keeps it exactly when it is non-empty |
| `Strings.NonEmptyAppend` | src/CommandMessage.ts:238 | filtering a concatenation is the concatenation of the filtered parts, so with the singleton case the filter keeps exactly the non-empty pieces in their order |
| `Strings.Join` | src/CommandMessage.ts:239 | `join(" ")` of one or more pieces is as long as the pieces together plus one separator per gap |
| `Strings.JoinRemoveSpaces` | src/CommandMessage.ts:239 | taking the separators out of a join of space-free pieces leaves exactly the pieces laid end to end |
| `Strings.Tokens` | src/CommandMessage.ts:238 | every token of a split-and-filter is non-empty and space-free |
| `Strings.SplitThenJoin` | src/CommandMessage.ts:238-239 | joining the pieces of `split(" ")` with single spaces gives back the original string |
| `Strings.JoinThenSplit` | src/CommandMessage.ts:238-239 | splitting a space-join of one or more space-free pieces gives back exactly those pieces |
| `Strings.TokensOfJoin` | src/CommandMessage.ts:238-239 | tokenizing a space-join of tokens gives back the same tokens in the same order |
| `Strings.TokensKeepContent` | src/CommandMessage.ts:238 | the tokens laid end to end are the string's non-space characters in their original order |
| `Strings.TokensEmptyIffBlank` | src/CommandMessage.ts:238 | a string has no tokens if and only if all its characters are spaces |
| `Strings.Lower` | src/CommandMessage.ts:251 | lower-casing keeps the length, leaves no ASCII capital, and changes only ASCII capitals |
| `Strings.LowerIdempotent` | src/CommandMessage.ts:251 | lower-casing twice equals lower-casing once |
| `Strings.LowerKeepsTokens` | src/CommandMessage.ts:251 | a string is a token if and only if its lower-cased form is one |
| `Strings.Trim` | src/CommandMessage.ts:131 | `trim()` gives a contiguous slice of the string that neither starts nor ends with JavaScript white space or a line terminator, and everything cut off before and after that slice is such white space |
| `Resolver.CommandString` | src/CommandMessage.ts:237 | the text that is tokenized is the normalised content after its first `prefixLength` characters: all of it for a prefix length of 0 or less, nothing for one at or past the end |
| `Resolver.ParseCommand` | src/CommandMessage.ts:236-241 | `command` is the first token of the command string and `options` the remaining tokens in order; `command` is undefined exactly when there is no token, which is exactly when the command string is blank, and then there are no options and rawOptions is ""; otherwise command and options are tokens; rawOptions is the options space-joined and re-tokenizes to them; the non-space characters of the command string are the command's followed by the options' |
| `Resolver.ResolveCommandMessage` | src/CommandMessage.ts:249-257 | resolution fails with UndefinedCommand if and only if the command string is blank; on success the command is a lower-case token, the options are tokens, and rawOptions is their space-join, which re-tokenizes to the options |
| `Resolver.ResolveTakesTokens` | src/CommandMessage.ts:236-257 | resolution fails exactly when no token remains; otherwise the command is the lower-cased first token and the options are the remaining tokens in order |
| `Resolver.ResolveKeepsContent` | src/CommandMessage.ts:236-251 | with the default normaliser, the command string without spaces starts with the command's characters (same up to lower-casing) and continues with exactly the options' characters |
| `Resolver.PrefixPastEndFails` | src/CommandMessage.ts:237-251 | a prefix length at or past the end of the normalised content makes resolution fail |
| `Resolver.CommandAlreadyLowerCase` | src/CommandMessage.ts:249-251 | a resolved command is unchanged by lower-casing it again |
| `Resolver.ResolveRender` | src/CommandMessage.ts:236-257 | every well-formed result comes back unchanged from resolving prefix + command + space-separated options, so resolving and rendering are inverse |
| `Resolver.ResolveSingleToken` | src/CommandMessage.ts:236-251 | content made of a prefix and one space-free, non-empty token resolves to that token lower-cased, with no options and empty rawOptions |
| `Resolver.ResolveExampleOptions` | src/CommandMessage.ts:236-257 | "!foo bar baz" with prefix length 1 resolves to command "foo", options ["bar", "baz"], rawOptions "bar baz" |
| `Resolver.ResolveExampleUpperCase` | src/CommandMessage.ts:249-251 | "!FOO" with prefix length 1 resolves to command "foo" with no options |
| `Resolver.ResolveExampleBlank` | src/CommandMessage.ts:236-251 | "!   " with prefix length 1 fails with UndefinedCommand |
| `Platform.NatToDecimal` | src/CommandMessage.ts:57 | the decimal numeral of a natural number: non-empty, digits only, denotes the number, and has no leading zero unless it is "0" |
| `Platform.Stringify` | src/CommandMessage.ts:57 | `value.toString()`: a string argument as it is; an integer as "-" exactly when it is negative, followed by digits only, with no leading zero unless the magnitude is 0, that denote its magnitude; a boolean as "true" or "false" |
| `Platform.StringifyAll` | src/CommandMessage.ts:57 | one string per argument, each the `toString()` of that argument's value, in the arguments' order |
| `Commands.AuthoredByBot` | src/ResponseMessage.ts:20-47 | a message-origin response passes the guard exactly when its author is its own client's user; an interaction-origin response exactly when its author is the interaction's client user |
| `Commands.AuthorGuardsAgree` | src/ResponseMessage.ts:20-47 | when the message is held by the interaction's own bot client the two author guards agree; otherwise no message passes both |
| `Commands.InteractionContent` | src/CommandMessage.ts:131 | the synthesised content of an interaction is non-empty and starts with "/" |
| `Commands.InteractionContentWithoutOptions` | src/CommandMessage.ts:131 | with no arguments (and a command name not ending in white space), the interaction content is "/" + command name |
| `Commands.InteractionOptionsNeedNotRoundTrip` | src/CommandMessage.ts:57-58 | for an interaction, rawOptions need not tokenize back to the options: an argument "a b" gives options ["a b"] |
| `Commands.CommandMessage.CreateFromMessage` | src/CommandMessage.ts:24-33 | fails with UndefinedCommand if and only if the content is blank after the prefix; otherwise a fresh, valid, message-origin command whose command, options and rawOptions are what `resolveCommandMessage` gives, with nothing bound |
| `Commands.CommandMessage.CreateFromMessageWithParsed` | src/CommandMessage.ts:35-43 | a fresh message-origin command that carries the given parsed fields, with nothing bound and the flag clear |
| `Commands.CommandMessage.CreateFromInteraction` | src/CommandMessage.ts:50-60 | a fresh, valid, interaction-origin command: command is the command name, options are the stringified argument values in order, rawOptions is their space-join |
| `Commands.CommandMessage.HasReplied` | src/CommandMessage.ts:68-90 | the guard `reply` checks: for a text command, whether a response is bound; for a slash command, the replied flag, whatever the response slot holds |
| `Commands.CommandMessage.Reply` | src/CommandMessage.ts:68-102 | fails with AlreadyReplied and changes nothing when the origin's guard is set (bound response for a message, replied flag for an interaction); a platform failure changes nothing; otherwise succeeds if and only if the reply's author is the bot; the interaction flag is set even when the author check fails; on success the handle has the matching origin, wraps the reply, points back to this command and is this command's response |
| `Commands.CommandMessage.SuppressEmbeds` | src/CommandMessage.ts:116-122 | an interaction-origin command returns itself; a message-origin command returns a fresh command over the updated message with identical command, options and rawOptions and nothing bound; validity carries over |
| `Commands.CommandMessage.Content` | src/CommandMessage.ts:127-133 | a message's content as is; for an interaction, a string starting with "/" |
| `Commands.CommandMessage.Reactions` | src/CommandMessage.ts:167-169 | the message's reactions for a message origin, null for an interaction origin |
| `Commands.CommandMessage.Url` | src/CommandMessage.ts:175-177 | the message's url for a message origin, null for an interaction origin |
| `Commands.CommandMessage.Attachments` | src/CommandMessage.ts:211-213 | the message's attachments for a message origin, an empty collection for an interaction origin |
| `Commands.ResponseMessage.CreateFromMessage` | src/ResponseMessage.ts:20-28 | fails with NotResponseMessage if and only if the message's author is not its client's user; otherwise a fresh message-origin handle that wraps the message and is bound to the given command |
| `Commands.ResponseMessage.CreateFromInteraction` | src/ResponseMessage.ts:37-47 | fails with NotResponseMessage if and only if the message's author is not the interaction's client user; otherwise a fresh interaction-origin handle that wraps the message and is bound to the given command |
| `Commands.ResponseMessage.Edit` | src/ResponseMessage.ts:54-85 | a platform failure is passed through; otherwise succeeds if and only if the edited message's author is the bot for this origin; on success a fresh handle with the same origin and the same bound command, which is then that command's response; on failure the command's response is unchanged; only the command's response slot may change, and if the command's response pointed back to it before the edit, it still does afterwards |
| `Commands.ResponseMessage.Fetch` | src/ResponseMessage.ts:213-215 | always a message-origin handle bound to the same command (even for an interaction-origin response), subject to the message-origin author check; changes no state, so the command's response is not rebound |
| `Scenarios.ReplyTwiceToMessage` | src/CommandMessage.ts:68-86 | after a successful reply to a text command, the command's response is that handle and a second reply fails with AlreadyReplied; after a reply rejected by the author check, a second valid reply succeeds |
| `Scenarios.ReplyTwiceToInteraction` | src/CommandMessage.ts:86-100 | once the platform has answered a first reply to a slash command, a second reply fails with AlreadyReplied, even if the first was rejected by the author check; a successful reply is the command's response |
| `Scenarios.ReplyThenEdit` | src/ResponseMessage.ts:54-71 | after reply then a successful edit, the new handle differs from the first, is bound to the same command and is now its response, while the first handle still wraps the first reply; after a failed edit the first handle stays bound |
| `Scenarios.FetchAfterInteractionReply` | src/ResponseMessage.ts:213-215 | fetching an interaction reply gives a message-origin handle bound to the same command, and the command's response is still the reply |

Response handles have only `const` fields. So "the old handle's fields are untouched by `edit`" holds by construction, and so does "the `command` accessor returns the command the handle was built with": the accessor is the field `commandMessage`. `ResolveCommandMessage` is a function, so it is deterministic.

## Left out

- The platform calls themselves: `message.reply`, `interaction.editReply`, `message.edit`, `message.suppressEmbeds`, `message.fetch`, `message.delete` and `message.react`. Each is a parameter giving the platform's answer or failure. `ResponseMessage.delete` and `ResponseMessage.react` only delegate to such a call, so they are not modelled.
- The reply and edit payload: string versus options object, and the `Object.assign` of `allowedMentions` and `fetchReply`. This is platform payload formatting, and the model has no content argument for `Reply` and `Edit`.
- The fire-and-forget `deferReply` at src/CommandMessage.ts:54, and the interaction's `deferred` flag. They leave no state that this layer reads.
- The `_client` field and the pass-through accessors: `author`, `member`, `channel`, `guild`, `createdTimestamp`, `createdAt`, `id`, `channelId`, and on responses `content`, `reactions`, `url`, `attachments`, `embeds` and `components` as well. They are reads of platform objects with nothing to prove.
- The conversion `new Message(client, message)` of a raw API payload at src/ResponseMessage.ts:44. The model receives every reply as a `Msg` already.
- Strings.Lower: only ASCII capitals are lower-cased. Unicode case mapping of JavaScript `toLowerCase`, including mappings that change the length, is not modelled.
- Platform.Stringify: argument values are strings, integers or booleans. Floating-point `NUMBER` arguments are not modelled, and neither are integers large enough that JavaScript prints them in exponent form. Every argument carries a value: an option entry without one (a sub-command or sub-command group) makes `arg.value.toString()` at src/CommandMessage.ts:57 throw, so `createFromInteraction` throws for such an interaction where `CreateFromInteraction` always succeeds.
- Commands.InteractionContent: the synthesised content of an interaction is pinned exactly only when it has no arguments (`InteractionContentWithoutOptions`); with arguments the contract promises only a leading "/", because this layer uses that string for display and never tokenizes it again.
- Strings.Substring: indices count Unicode scalar values, where JavaScript `substring` counts UTF-16 code units. A content with a character above U+FFFF inside or just after the prefix is cut differently: "🎉ping" from 1 gives "ping" here and a lone low surrogate followed by "ping" in JavaScript.
- Commands.CommandMessage.SuppressEmbeds: the new command gets the same `options` value. In the source the old and the new instance share one `_options` array, so a later mutation of that array through one would show through the other; the model's options are immutable sequences and this aliasing is not captured.
- `prefixLength` is an integer. Fractional or NaN prefix lengths, which `substring` truncates or treats as 0, are not modelled.
- The normaliser is any total function on strings. The static `this.resolveCommandMessage` dispatch, which a subclass could override, is not modelled.
- Two `reply` calls racing on one command are out of scope: the model is sequential, and the source does not defend against the race.
