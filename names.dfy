/**
 * The two renamings a search term goes through: spaces become `+` for the
 * search URL, and `+` becomes `_` for the name of the term's table.
 */
module Names {
  import opened Text

  /** The term as it appears in the search URL: every space replaced by `+`. */
  function SearchName(raw: string): (r: string)
    ensures |r| == |raw| && ' ' !in r
  {
    ReplaceChar(raw, ' ', '+')
  }

  /** The name of a term's table: every `+` replaced by `_`. */
  function TableName(name: string): (r: string)
    ensures |r| == |name| && '+' !in r
  {
    ReplaceChar(name, '+', '_')
  }

  /** Renaming a table name again leaves it as it is. */
  lemma TableNameIdempotent(name: string)
    ensures TableName(TableName(name)) == TableName(name)
  {
    ReplaceCharIdempotent(name, '+', '_');
  }

  /**
   * A raw term's table name has neither spaces nor `+`, and every other
   * character of the raw term is kept in place.
   */
  lemma {:induction false} TableNameOfRaw(raw: string)
    ensures |TableName(SearchName(raw))| == |raw|
    ensures forall i :: 0 <= i < |raw| ==>
      TableName(SearchName(raw))[i] == if raw[i] == ' ' || raw[i] == '+' then '_' else raw[i]
    ensures ' ' !in TableName(SearchName(raw)) && '+' !in TableName(SearchName(raw))
  {
    var t := TableName(SearchName(raw));
    forall c | c in t ensures c != ' ' {
      var i :| 0 <= i < |t| && t[i] == c;
    }
  }
}
