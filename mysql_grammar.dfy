/**
 * The MySQL grammar: an extended table that quotes identifiers with
 * backticks, laid over the standard grammar table.
 */
module MySQLGrammar {
  import opened Errors
  import opened Php
  import opened Grammars

  /** `MySQLGrammar::$tableExtended`. */
  const Extended: Table := map[
    "quoteIdentLeft" := Text("`"),
    "quoteIdentRight" := Text("`")
  ]

  /** `getToken($key)` on a MySQL grammar. */
  function GetToken(key: Value): (r: Result<Option<Token>>)
    ensures key == Str("quoteIdentLeft") ==> r == Ok(Some(Text("`")))
    ensures key == Str("quoteIdentRight") ==> r == Ok(Some(Text("`")))
    ensures key.Str? && key.s != "quoteIdentLeft" && key.s != "quoteIdentRight"
            ==> r == Ok(Standard(GrammarTable, key.s))
    ensures !key.Str? ==> r.Err?
  {
    Grammars.GetToken(Extended, key)
  }

  /** The override table holds exactly the two identifier quotes, and both are well formed. */
  lemma ExtendedKeys()
    ensures Extended.Keys == {"quoteIdentLeft", "quoteIdentRight"}
    ensures WellFormed(Extended)
  {
  }

  /** Every other token, `op_eq` among them, is the standard entry unchanged. */
  lemma {:induction false} OtherTokensStandard(key: string)
    requires key != "quoteIdentLeft" && key != "quoteIdentRight"
    ensures Resolve(Extended, GrammarTable, key) == Standard(GrammarTable, key)
    ensures key == "op_eq" ==> Resolve(Extended, GrammarTable, key) == Some(Operator("? = ?", ["key", "value"]))
  {
    assert key !in Extended;
  }

  /** The backtick overrides the standard double quote. */
  lemma QuotesOverridden()
    ensures Resolve(Extended, GrammarTable, "quoteIdentLeft") == Some(Text("`"))
    ensures Standard(GrammarTable, "quoteIdentLeft") == Some(Text("\""))
    ensures Resolve(Extended, GrammarTable, "quoteIdentRight") == Some(Text("`"))
  {
  }
}
