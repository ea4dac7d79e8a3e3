/**
 * The command tokenizer: `parseCommand` and `resolveCommandMessage` of
 * src/CommandMessage.ts. A command line is normalised, its prefix is cut
 * off, it is split on single spaces, empty pieces are dropped, and the first
 * token (lower-cased) is the command while the rest are its options.
 */
module Resolver {
  import opened Wrappers
  import opened Strings

  /** What `parseCommand` returns: `command` is `undefined` when no token is left. */
  datatype Parsed = Parsed(command: Option<string>, options: seq<string>, rawOptions: string)

  /** What `resolveCommandMessage` returns when it does not throw. */
  datatype Resolved = Resolved(command: string, options: seq<string>, rawOptions: string)

  /** The `TypeError` thrown by `undefined.toLowerCase()` when the line has no token. */
  datatype ResolveError = UndefinedCommand

  /** The default text normaliser `v => v`. */
  function Identity(text: string): string {
    text
  }

  /**
   * The shape of every resolved command: the command is a lower-case token,
   * every option is a token, and the raw options are the options joined by
   * single spaces.
   */
  predicate WellFormed(r: Resolved) {
    IsToken(r.command) && IsLowerCase(r.command)
    && AllTokens(r.options)
    && r.rawOptions == Join(r.options)
  }

  /** The text that is tokenized: the normalised line without its first `prefixLength` characters. */
  function CommandString(cmd: string, prefixLength: int, normalizer: string -> string): (r: string)
    ensures 0 <= prefixLength <= |normalizer(cmd)| ==> normalizer(cmd)[..prefixLength] + r == normalizer(cmd)
    ensures prefixLength <= 0 ==> r == normalizer(cmd)
    ensures prefixLength >= |normalizer(cmd)| ==> r == ""
  {
    Substring(normalizer(cmd), prefixLength)
  }

  /**
   * `parseCommand`: the first token of the command string and the remaining
   * tokens in order, plus those remaining tokens joined by single spaces.
   */
  function ParseCommand(cmd: string, prefixLength: int, normalizer: string -> string): (p: Parsed)
    ensures p.command.None? <==> IsBlank(CommandString(cmd, prefixLength, normalizer))
    ensures var ts := Tokens(CommandString(cmd, prefixLength, normalizer));
            && (p.command.None? <==> ts == [])
            && (p.command.Some? ==> p.command.value == ts[0] && p.options == ts[1..])
    ensures p.command.None? ==> p.options == [] && p.rawOptions == ""
    ensures p.command.Some? ==> IsToken(p.command.value)
    ensures AllTokens(p.options) && p.rawOptions == Join(p.options)
    ensures Tokens(p.rawOptions) == p.options
    ensures RemoveSpaces(CommandString(cmd, prefixLength, normalizer))
            == (if p.command.Some? then p.command.value else "") + Concat(p.options)
  {
    var line := CommandString(cmd, prefixLength, normalizer);
    var tokens := Tokens(line);
    TokensEmptyIffBlank(line);
    TokensKeepContent(line);
    if |tokens| == 0 then
      Parsed(None, [], "")
    else
      var options := tokens[1..];
      assert AllTokens(options) by {
        forall i | 0 <= i < |options| ensures IsToken(options[i]) {
          assert options[i] == tokens[i + 1];
        }
      }
      assert Concat(tokens) == tokens[0] + Concat(options);
      TokensOfJoin(options);
      Parsed(Some(tokens[0]), options, Join(options))
  }

  /**
   * `resolveCommandMessage`: `parseCommand` followed by lower-casing the
   * command, which throws when there is no command token.
   */
  function ResolveCommandMessage(content: string, prefixLength: int, normalizer: string -> string := Identity)
    : (r: Result<Resolved, ResolveError>)
    ensures r.Failure? <==> IsBlank(CommandString(content, prefixLength, normalizer))
    ensures r.Failure? ==> r.error == UndefinedCommand
    ensures r.Success? ==> WellFormed(r.value) && Tokens(r.value.rawOptions) == r.value.options
  {
    var p := ParseCommand(content, prefixLength, normalizer);
    match p.command
    case None => Failure(UndefinedCommand)
    case Some(command) =>
      LowerKeepsTokens(command);
      Success(Resolved(Lower(command), p.options, p.rawOptions))
  }

  /** A canonical command line for a resolved command: the prefix, the command, and each option after one space. */
  function Render(prefix: string, r: Resolved): string {
    prefix + Join([r.command] + r.options)
  }

  /**
   * The resolved command is the lower-cased first token of the command
   * string, and its options are the remaining tokens in their order.
   */
  lemma ResolveTakesTokens(content: string, prefixLength: int, normalizer: string -> string)
    ensures var ts := Tokens(CommandString(content, prefixLength, normalizer));
            var r := ResolveCommandMessage(content, prefixLength, normalizer);
            (r.Failure? <==> ts == [])
            && (r.Success? ==> r.value.command == Lower(ts[0]) && r.value.options == ts[1..])
  {
    TokensEmptyIffBlank(CommandString(content, prefixLength, normalizer));
  }

  /**
   * The characters of the command string other than spaces are exactly
   * those of the command (before lower-casing) followed by those of the
   * options: no character is lost, added or moved.
   */
  lemma ResolveKeepsContent(content: string, prefixLength: int)
    requires ResolveCommandMessage(content, prefixLength).Success?
    ensures var r := ResolveCommandMessage(content, prefixLength).value;
            var rest := RemoveSpaces(Substring(content, prefixLength));
            |r.command| <= |rest| && Lower(rest[..|r.command|]) == r.command
            && rest[|r.command|..] == Concat(r.options)
  {
    var p := ParseCommand(content, prefixLength, Identity);
    var rest := RemoveSpaces(Substring(content, prefixLength));
    assert rest == p.command.value + Concat(p.options);
    assert rest[..|p.command.value|] == p.command.value;
    assert rest[|p.command.value|..] == Concat(p.options);
  }

  /** A prefix length at or past the end of the normalised line leaves no token, so resolution fails. */
  lemma PrefixPastEndFails(content: string, prefixLength: int, normalizer: string -> string)
    requires prefixLength >= |normalizer(content)|
    ensures ResolveCommandMessage(content, prefixLength, normalizer) == Failure(UndefinedCommand)
  {
  }

  /** Resolving the resolved command again (lower-casing it once more) changes nothing. */
  lemma CommandAlreadyLowerCase(content: string, prefixLength: int, normalizer: string -> string)
    requires ResolveCommandMessage(content, prefixLength, normalizer).Success?
    ensures var c := ResolveCommandMessage(content, prefixLength, normalizer).value.command;
            Lower(c) == c
  {
    var c := ResolveCommandMessage(content, prefixLength, normalizer).value.command;
    LowerOfLowerCase(c);
  }

  /**
   * Every well-formed result is reproduced by resolving its canonical
   * command line, for any prefix: resolution is onto the well-formed results.
   */
  lemma ResolveRender(prefix: string, r: Resolved)
    requires WellFormed(r)
    ensures ResolveCommandMessage(Render(prefix, r), |prefix|) == Success(r)
  {
    var ts := [r.command] + r.options;
    assert AllTokens(ts) by {
      forall i | 0 <= i < |ts| ensures IsToken(ts[i]) {
        if i > 0 { assert ts[i] == r.options[i - 1]; }
      }
    }
    var line := Render(prefix, r);
    assert Substring(line, |prefix|) == Join(ts) by {
      assert line[|prefix|..] == Join(ts);
    }
    TokensOfJoin(ts);
    assert ts[1..] == r.options;
    LowerOfLowerCase(r.command);
  }

  /** "!foo bar baz" with prefix length 1 resolves to command "foo" and options "bar", "baz". */
  lemma ResolveExampleOptions()
    ensures ResolveCommandMessage("!foo bar baz", 1) == Success(Resolved("foo", ["bar", "baz"], "bar baz"))
  {
    var r := Resolved("foo", ["bar", "baz"], "bar baz");
    var opts := ["bar", "baz"];
    var all := ["foo", "bar", "baz"];
    assert Join(opts) == "bar baz" by {
      assert opts[1..] == ["baz"];
    }
    assert Join(all) == "foo bar baz" by {
      assert all[1..] == opts;
    }
    assert [r.command] + r.options == all;
    assert "!" + "foo bar baz" == "!foo bar baz";
    ResolveRender("!", r);
  }

  /** A line that is a prefix and one token, in any case, resolves to that token lower-cased, with no options. */
  lemma ResolveSingleToken(prefix: string, t: string)
    requires IsToken(t)
    ensures ResolveCommandMessage(prefix + t, |prefix|) == Success(Resolved(Lower(t), [], ""))
  {
    assert CommandString(prefix + t, |prefix|, Identity) == t by {
      assert (prefix + t)[|prefix|..] == t;
    }
    assert AllTokens([t]) && Join([t]) == t;
    TokensOfJoin([t]);
    ResolveTakesTokens(prefix + t, |prefix|, Identity);
  }

  /** "!FOO" with prefix length 1 resolves to the lower-cased command "foo" and no options. */
  lemma ResolveExampleUpperCase()
    ensures ResolveCommandMessage("!FOO", 1) == Success(Resolved("foo", [], ""))
  {
    var low := Lower("FOO");
    assert low[0] == 'f' && low[1] == 'o' && low[2] == 'o';
    assert low == "foo";
    var line := "!FOO";
    assert line == "!" + "FOO";
    ResolveSingleToken("!", "FOO");
  }

  /** A line holding only the prefix and spaces has no command: resolution throws. */
  lemma ResolveExampleBlank()
    ensures ResolveCommandMessage("!   ", 1) == Failure(UndefinedCommand)
  {
    assert CommandString("!   ", 1, Identity) == "   ";
  }
}
