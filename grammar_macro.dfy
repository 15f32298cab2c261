/**
 * The `reverseWheres` grammar macro: it takes a builder's compiled WHERE
 * clauses, flips each clause's leading connective into its negated form
 * (`and …` becomes `or not …`, `or …` becomes `and not …`), joins them and
 * strips the leading `where `, giving raw SQL meant as the negation of the
 * builder's filter. What that text means is the subject of module Negation.
 */
module GrammarMacro {
  import opened Strings
  import opened Query

  /** The rewrite the loop applies to one compiled clause. */
  function FlipWhere(w: string): (r: string)
    ensures |w| >= 3 && LowerChar(w[0]) == 'a' && LowerChar(w[1]) == 'n' && LowerChar(w[2]) == 'd'
      ==> r == "or not" + w[3..]
    ensures !(|w| >= 3 && LowerChar(w[0]) == 'a' && LowerChar(w[1]) == 'n' && LowerChar(w[2]) == 'd')
      && |w| >= 2 && LowerChar(w[0]) == 'o' && LowerChar(w[1]) == 'r'
      ==> r == "and not" + w[2..]
    ensures !(|w| >= 3 && LowerChar(w[0]) == 'a' && LowerChar(w[1]) == 'n' && LowerChar(w[2]) == 'd')
      && !(|w| >= 2 && LowerChar(w[0]) == 'o' && LowerChar(w[1]) == 'r')
      ==> r == w
  {
    var lower := Lower(w);
    assert StartsWith(lower, "and", false) <==>
      |w| >= 3 && LowerChar(w[0]) == 'a' && LowerChar(w[1]) == 'n' && LowerChar(w[2]) == 'd' by {
      if |w| >= 3 && LowerChar(w[0]) == 'a' && LowerChar(w[1]) == 'n' && LowerChar(w[2]) == 'd' {
        assert forall k :: 0 <= k < 3 ==> lower[k] == "and"[k];
      }
      if StartsWith(lower, "and", false) {
        assert SameChar(lower[0 + 0], "and"[0], false) && SameChar(lower[0 + 1], "and"[1], false);
        assert SameChar(lower[0 + 2], "and"[2], false);
      }
    }
    assert StartsWith(lower, "or", false) <==>
      |w| >= 2 && LowerChar(w[0]) == 'o' && LowerChar(w[1]) == 'r' by {
      if |w| >= 2 && LowerChar(w[0]) == 'o' && LowerChar(w[1]) == 'r' {
        assert forall k :: 0 <= k < 2 ==> lower[k] == "or"[k];
      }
      if StartsWith(lower, "or", false) {
        assert SameChar(lower[0 + 0], "or"[0], false) && SameChar(lower[0 + 1], "or"[1], false);
      }
    }
    if StartsWith(lower, "and", false) then "or not" + w[3..]
    else if StartsWith(lower, "or", false) then "and not" + w[2..]
    else w
  }

  /** The clause list after the loop: same length and order, each clause flipped. */
  function FlipAll(wheres: seq<string>): (r: seq<string>)
    ensures |r| == |wheres|
    ensures forall k :: 0 <= k < |wheres| ==> r[k] == FlipWhere(wheres[k])
  {
    seq(|wheres|, k requires 0 <= k < |wheres| => FlipWhere(wheres[k]))
  }

  /**
   * The macro's result: the flipped clauses concatenated by the grammar,
   * with the first `where ` (any case) removed. Since the grammar's text
   * starts with `where `, that is exactly the joined clauses less their
   * leftmost connective.
   */
  function ReversedWheres(wheres: seq<string>): (sql: string)
    ensures sql == RemoveLeadingBoolean(Join(FlipAll(wheres), " "))
  {
    var concatenated := ConcatenateWhereClauses(FlipAll(wheres));
    RemoveFirstOfPrefix(concatenated, "where ", true);
    RemoveFirst(concatenated, "where ", true)
  }

  /** The macro as written: a by-reference `foreach` over the compiled clauses, then one replacement. */
  method ReverseWheres(wheres: seq<string>) returns (sql: string)
    ensures sql == ReversedWheres(wheres)
  {
    var ws := wheres;
    var i := 0;
    while i < |ws|
      invariant |ws| == |wheres| && 0 <= i <= |ws|
      invariant forall k :: 0 <= k < i ==> ws[k] == FlipWhere(wheres[k])
      invariant forall k :: i <= k < |ws| ==> ws[k] == wheres[k]
    {
      ws := ws[i := FlipWhere(ws[i])];
      i := i + 1;
    }
    assert ws == FlipAll(wheres);
    sql := RemoveFirst(ConcatenateWhereClauses(ws), "where ", true);
  }
}
