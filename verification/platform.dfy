/**
 * The chat platform's objects as this layer sees them: a message, a slash
 * command interaction and the values of its arguments. They are values
 * here; what the platform does with them (sending, editing, fetching) is
 * outside the model, and its answers are passed in by the caller.
 */
module Platform {

  /** A file attached to a message. */
  datatype Attachment = Attachment(id: string, name: string, url: string)

  /**
   * A chat message. `clientUserId` is `message.client.user.id`: the id of
   * the bot account whose client holds the message.
   */
  datatype Msg = Msg(
    id: string,
    authorId: string,
    clientUserId: string,
    content: string,
    url: string,
    reactions: seq<string>,
    attachments: map<string, Attachment>)

  /** The value of one slash command argument (string, integer or boolean). */
  datatype ArgValue = StringValue(s: string) | IntegerValue(n: int) | BooleanValue(b: bool)

  /**
   * A slash command interaction. `clientUserId` is `interaction.client.user.id`,
   * `args` are the values of `interaction.options.data` in order.
   */
  datatype Interaction = Interaction(id: string, clientUserId: string, commandName: string, args: seq<ArgValue>)

  /** The number a string of decimal digits denotes, most significant digit first ("" denotes 0). */
  function DecimalValue(d: string): int
    decreases |d|
  {
    if |d| == 0 then 0 else 10 * DecimalValue(d[..|d| - 1]) + (d[|d| - 1] as int - '0' as int)
  }

  /** A decimal numeral as `toString()` writes it: digits only, and no leading zero unless it is "0". */
  predicate IsDecimalNumeral(d: string) {
    && |d| > 0
    && (forall i :: 0 <= i < |d| ==> '0' <= d[i] <= '9')
    && (d[0] == '0' ==> d == "0")
  }

  /** The number a decimal numeral with an optional leading "-" denotes. */
  function SignedDecimalValue(d: string): int {
    if |d| > 0 && d[0] == '-' then -DecimalValue(d[1..]) else DecimalValue(d)
  }

  /**
   * The decimal digits of `n`, most significant first: they denote `n`, and
   * there is no leading zero unless `n` is 0.
   */
  function NatToDecimal(n: nat): (r: string)
    ensures |r| > 0
    ensures forall i :: 0 <= i < |r| ==> '0' <= r[i] <= '9'
    ensures DecimalValue(r) == n
    ensures r[0] == '0' ==> n == 0
    ensures IsDecimalNumeral(r)
    decreases n
  {
    var digit := ('0' as int + n % 10) as char;
    if n < 10 then
      assert [digit][..0] == "";
      [digit]
    else
      var high := NatToDecimal(n / 10);
      assert (high + [digit])[..|high|] == high;
      high + [digit]
  }

  /**
   * `value.toString()` of an argument value: a string as it is, an integer
   * as "-" exactly when it is negative followed by the decimal numeral of
   * its magnitude, a boolean as "true" or "false".
   */
  function Stringify(v: ArgValue): (r: string)
    ensures v.StringValue? ==> r == v.s
    ensures v.IntegerValue? ==> |r| > 0 && SignedDecimalValue(r) == v.n && (r[0] == '-' <==> v.n < 0)
    ensures v.IntegerValue? ==>
              var magnitude := if v.n < 0 then r[1..] else r;
              IsDecimalNumeral(magnitude) && DecimalValue(magnitude) == if v.n < 0 then -v.n else v.n
    ensures v.BooleanValue? ==> r == (if v.b then "true" else "false")
  {
    match v
    case StringValue(s) => s
    case IntegerValue(n) =>
      if n < 0 then
        var digits := NatToDecimal(-n);
        assert ("-" + digits)[1..] == digits;
        "-" + digits
      else NatToDecimal(n)
    case BooleanValue(b) => if b then "true" else "false"
  }

  /** `args.map(arg => arg.value.toString())`: one string per argument, in the arguments' order. */
  function StringifyAll(args: seq<ArgValue>): (r: seq<string>)
    ensures |r| == |args|
    ensures forall i :: 0 <= i < |args| ==> r[i] == Stringify(args[i])
  {
    seq(|args|, i requires 0 <= i < |args| => Stringify(args[i]))
  }
}
