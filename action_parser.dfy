/**
 * `ActionParser.parseSchema` (src/action-parser.js): decode a string schema with
 * `JSON.parse`, use any other value as it is, and accept only an array.
 *
 * The method is static, yet its catch block reports through `this.logger`; `this` is then
 * the class, which has no `logger`, so the rejection path throws a TypeError instead of
 * returning `[]`. `ParseSchema` models that: a rejection is the `Threw` outcome.
 */
module ActionParser {
  import opened JsValue

  /** Why the try block failed, before its catch block throws in turn. */
  datatype ParseError = MalformedJson | NotAnArray

  datatype ParseOutcome = Parsed(actions: seq<Value>) | Threw(cause: ParseError)

  /** `JSON.parse` as an oracle: `None` where it throws a SyntaxError. */
  type Decoder = string -> Option<Value>

  /** The value the try block checks: the decoded text, or the schema itself. */
  function Decoded(schema: Value, decode: Decoder): Option<Value> {
    if schema.Str? then decode(schema.s) else Some(schema)
  }

  function ParseSchema(schema: Value, decode: Decoder): (r: ParseOutcome)
    ensures r.Parsed? <==> Decoded(schema, decode).Some? && Decoded(schema, decode).value.Arr?
    ensures r.Parsed? ==> Decoded(schema, decode) == Some(Arr(r.actions))
    ensures schema.Str? && decode(schema.s).None? ==> r == Threw(MalformedJson)
    ensures Decoded(schema, decode).Some? && !Decoded(schema, decode).value.Arr? ==> r == Threw(NotAnArray)
  {
    match Decoded(schema, decode)
    case None => Threw(MalformedJson)
    case Some(actions) => if actions.Arr? then Parsed(actions.items) else Threw(NotAnArray)
  }

  /** A value that is not a string is used as it is: an array is accepted element for element. */
  lemma NonStringArrayAsIs(items: seq<Value>, decode: Decoder)
    ensures ParseSchema(Arr(items), decode) == Parsed(items)
  {
  }

  /**
   * Parsing is stable on its own output: the accepted array, handed back in as a value,
   * is accepted again unchanged.
   */
  lemma ParseIdempotent(schema: Value, decode: Decoder)
    requires ParseSchema(schema, decode).Parsed?
    ensures ParseSchema(Arr(ParseSchema(schema, decode).actions), decode) == ParseSchema(schema, decode)
  {
  }

  /**
   * The empty sequence comes back only for an empty array: no rejected schema yields `[]`,
   * the value the catch block was written to return.
   */
  lemma EmptyOnlyForEmptyArray(schema: Value, decode: Decoder)
    ensures ParseSchema(schema, decode) == Parsed([]) <==> Decoded(schema, decode) == Some(Arr([]))
  {
  }
}
