/** The SQL statements OOoDatasource sends: the key lookup of
    `getDatasetsByKey`, the search of `find` and the full listing of
    `getContents`. Next to each builder stands a reader that takes the
    statement apart again the way SQL does, and the lemmas say that it
    gives back what the statement was built from. */
module Queries {
  import opened Outcomes
  import opened Text
  import opened KeyCodec
  import opened SqlText
  import opened RowKey

  /** `SELECT * FROM "table"`, the start of every statement. */
  function From(table: string): string
  {
    "SELECT * FROM " + SqlIdentifier(table)
  }

  // ---------------------------------------------------------------------
  // getDatasetsByKey

  /** `"column"='value'`: one condition of a key lookup. */
  function Equality(p: (string, string)): string
  {
    SqlIdentifier(p.0) + "=" + SqlLiteral(p.1)
  }

  function Equalities(ps: seq<(string, string)>): seq<string>
  {
    Map(Equality, ps)
  }

  /** The conditions of one key joined with ` AND `. */
  function Conjunction(ps: seq<(string, string)>): string
  {
    Join(" AND ", Equalities(ps))
  }

  /** The parenthesised condition for one key. */
  function KeyClause(ps: seq<(string, string)>): string
  {
    "(" + Conjunction(ps) + ")"
  }

  function KeyClauses(pss: seq<seq<(string, string)>>): seq<string>
  {
    Map(KeyClause, pss)
  }

  /** The conditions of all keys joined with ` OR `. */
  function Disjunction(pss: seq<seq<(string, string)>>): string
  {
    Join(" OR ", KeyClauses(pss))
  }

  /** The pairs of every key, in order; None if some key has a field that
      does not decode (`decode` throws and no statement is sent). */
  function PairLists(keys: seq<string>): (r: Option<seq<seq<(string, string)>>>)
    ensures r.Some? <==> forall i :: 0 <= i < |keys| ==> KeyPairs(keys[i]).Some?
    ensures r.Some? ==> |r.value| == |keys| && forall i :: 0 <= i < |keys| ==> r.value[i] == KeyPairs(keys[i]).value
  {
    if forall i :: 0 <= i < |keys| ==> KeyPairs(keys[i]).Some?
    then Some(seq(|keys|, i requires 0 <= i < |keys| => KeyPairs(keys[i]).value))
    else None
  }

  /** The statement `getDatasetsByKey` sends for these keys. With no keys
      at all this is `SELECT * FROM "table" WHERE ;`, which is sent as it is. */
  function KeyQuery(table: string, keys: seq<string>): (r: Option<string>)
    ensures r.Some? <==> forall i :: 0 <= i < |keys| ==> KeyPairs(keys[i]).Some?
  {
    match PairLists(keys)
    case None => None
    case Some(pss) => Some(From(table) + " WHERE " + Disjunction(pss) + ";")
  }

  // ---------------------------------------------------------------------
  // find

  /** One element of a `find` query: a column and a search string with `*` as wildcard. */
  datatype QueryPart = QueryPart(columnName: string, searchString: string)

  /** `(lower("column") LIKE lower('pattern') ESCAPE '\')`, in the pieces
      `find` appends. */
  function FindPredicate(part: QueryPart): string
  {
    "(" + "lower(" + SqlIdentifier(part.columnName) + ")" + " LIKE " + "lower("
      + SqlLiteral(SqlSearchPattern(part.searchString)) + ") ESCAPE '\\'" + ")"
  }

  function FindPredicates(parts: seq<QueryPart>): seq<string>
  {
    Map(FindPredicate, parts)
  }

  /** The statement `find` sends; None for an empty query, where `find`
      sends nothing and answers with an empty result. */
  function FindQuery(table: string, parts: seq<QueryPart>): (r: Option<string>)
    ensures r.None? <==> parts == []
  {
    if parts == [] then None
    else Some(From(table) + " WHERE " + Join(" AND ", FindPredicates(parts)) + ";")
  }

  // ---------------------------------------------------------------------
  // getContents

  /** The statement `getContents` sends. */
  function ContentsQuery(table: string): string
  {
    From(table) + ";"
  }

  // ---------------------------------------------------------------------
  // Reading the statements back

  /** `t` with the text `p` taken off its front, if it starts with `p`. */
  function Expect(p: string, t: string): (r: Option<string>)
    ensures r.Some? ==> |r.value| == |t| - |p| && t == p + r.value
  {
    if |t| >= |p| && t[..|p|] == p then Some(t[|p|..]) else None
  }

  lemma ExpectPrefix(p: string, rest: string)
    ensures Expect(p, p + rest) == Some(rest)
  {
    assert (p + rest)[..|p|] == p;
    assert (p + rest)[|p|..] == rest;
  }

  /** Reads `"column"='value'` off the front of `t`. */
  function ReadEquality(t: string): (r: Option<((string, string), string)>)
    ensures r.Some? ==> |r.value.1| < |t|
  {
    match ReadQuoted('"', t)
    case None => None
    case Some((c, r1)) =>
      if r1 == [] || r1[0] != '=' then None
      else
        match ReadQuoted('\'', r1[1..])
        case None => None
        case Some((v, r2)) => Some(((c, v), r2))
  }

  /** Reads conditions joined with ` AND ` off the front of `t`. */
  function ReadConjunction(t: string): (r: Option<(seq<(string, string)>, string)>)
    ensures r.Some? ==> |r.value.1| < |t|
    decreases |t|
  {
    match ReadEquality(t)
    case None => None
    case Some((p, r1)) =>
      match Expect(" AND ", r1)
      case None => Some(([p], r1))
      case Some(r2) =>
        match ReadConjunction(r2)
        case None => None
        case Some((ps, r3)) => Some(([p] + ps, r3))
  }

  /** Reads one parenthesised key condition off the front of `t`; `()` has no conditions. */
  function ReadKeyClause(t: string): (r: Option<(seq<(string, string)>, string)>)
    ensures r.Some? ==> |r.value.1| < |t|
  {
    match Expect("()", t)
    case Some(r0) => Some(([], r0))
    case None =>
      match Expect("(", t)
      case None => None
      case Some(r1) =>
        match ReadConjunction(r1)
        case None => None
        case Some((ps, r2)) =>
          match Expect(")", r2)
          case None => None
          case Some(r3) => Some((ps, r3))
  }

  /** Reads the key conditions joined with ` OR ` that make up the rest of
      the statement, up to the final `;`. */
  function ReadDisjunction(t: string): Option<seq<seq<(string, string)>>>
    decreases |t|
  {
    if t == ";" then Some([])
    else
      match ReadKeyClause(t)
      case None => None
      case Some((ps, r1)) =>
        if r1 == ";" then Some([ps])
        else
          match Expect(" OR ", r1)
          case None => None
          case Some(r2) =>
            if r2 == ";" then None
            else
              match ReadDisjunction(r2)
              case None => None
              case Some(pss) => Some([ps] + pss)
  }

  /** Reads a key lookup: the table and the pairs of every key. */
  function ReadKeyQuery(q: string): Option<(string, seq<seq<(string, string)>>)>
  {
    match Expect("SELECT * FROM ", q)
    case None => None
    case Some(r1) =>
      match ReadQuoted('"', r1)
      case None => None
      case Some((table, r2)) =>
        match Expect(" WHERE ", r2)
        case None => None
        case Some(r3) =>
          match ReadDisjunction(r3)
          case None => None
          case Some(pss) => Some((table, pss))
  }

  /** Reads one `find` predicate: the column and the LIKE pattern. */
  function ReadFindPredicate(t: string): (r: Option<((string, string), string)>)
    ensures r.Some? ==> |r.value.1| < |t|
  {
    match Expect("(lower(", t)
    case None => None
    case Some(r1) =>
      match ReadQuoted('"', r1)
      case None => None
      case Some((column, r2)) =>
        match Expect(") LIKE lower(", r2)
        case None => None
        case Some(r3) =>
          match ReadQuoted('\'', r3)
          case None => None
          case Some((pattern, r4)) =>
            match Expect(") ESCAPE '\\')", r4)
            case None => None
            case Some(r5) => Some(((column, pattern), r5))
  }

  /** Reads find predicates joined with ` AND ` up to the final `;`. */
  function ReadFindPredicates(t: string): Option<seq<(string, string)>>
    decreases |t|
  {
    match ReadFindPredicate(t)
    case None => None
    case Some((x, r1)) =>
      if r1 == ";" then Some([x])
      else
        match Expect(" AND ", r1)
        case None => None
        case Some(r2) =>
          match ReadFindPredicates(r2)
          case None => None
          case Some(xs) => Some([x] + xs)
  }

  /** Reads a `find` statement: the table and each predicate's column and pattern. */
  function ReadFindQuery(q: string): Option<(string, seq<(string, string)>)>
  {
    match Expect("SELECT * FROM ", q)
    case None => None
    case Some(r1) =>
      match ReadQuoted('"', r1)
      case None => None
      case Some((table, r2)) =>
        match Expect(" WHERE ", r2)
        case None => None
        case Some(r3) =>
          match ReadFindPredicates(r3)
          case None => None
          case Some(xs) => Some((table, xs))
  }

  /** Reads the listing statement of `getContents`: the table. */
  function ReadContentsQuery(q: string): Option<string>
  {
    match Expect("SELECT * FROM ", q)
    case None => None
    case Some(r1) =>
      match ReadQuoted('"', r1)
      case None => None
      case Some((table, r2)) => if r2 == ";" then Some(table) else None
  }

  // ---------------------------------------------------------------------
  // The statements read back

  lemma EqualityReadsBack(p: (string, string), rest: string)
    requires rest == [] || rest[0] != '\''
    ensures ReadEquality(Equality(p) + rest) == Some((p, rest))
  {
    var tail := "=" + SqlLiteral(p.1) + rest;
    assert Equality(p) + rest == SqlIdentifier(p.0) + tail;
    SqlIdentifierReadsBack(p.0, tail);
    assert tail[1..] == SqlLiteral(p.1) + rest;
    SqlLiteralReadsBack(p.1, rest);
  }

  lemma ConjunctionCons(ps: seq<(string, string)>, rest: string)
    requires |ps| >= 2
    ensures Conjunction(ps) + rest == Equality(ps[0]) + (" AND " + (Conjunction(ps[1..]) + rest))
  {
    MapTail(Equality, ps);
    JoinCons(" AND ", Equalities(ps), rest);
  }

  /** A condition followed by ` AND ` is read, then the reading goes on. */
  lemma ReadConjunctionCons(p: (string, string), more: string)
    ensures ReadConjunction(Equality(p) + (" AND " + more))
         == match ReadConjunction(more)
            case None => None
            case Some((ps, r)) => Some(([p] + ps, r))
  {
    EqualityReadsBack(p, " AND " + more);
    ExpectPrefix(" AND ", more);
  }

  /** The conditions of a key are read back in order, whatever follows
      them, as long as it does not continue the conjunction. */
  lemma {:induction false} ConjunctionReadsBack(ps: seq<(string, string)>, rest: string)
    requires |ps| >= 1
    requires rest == [] || rest[0] != '\''
    requires Expect(" AND ", rest).None?
    ensures ReadConjunction(Conjunction(ps) + rest) == Some((ps, rest))
  {
    if |ps| == 1 {
      assert Conjunction(ps) == Equality(ps[0]);
      EqualityReadsBack(ps[0], rest);
      assert [ps[0]] == ps;
    } else {
      ConjunctionReadsBack(ps[1..], rest);
      ConjunctionReadsBackStep(ps, rest);
    }
  }

  /** The first condition is read, then the others as before. */
  lemma ConjunctionReadsBackStep(ps: seq<(string, string)>, rest: string)
    requires |ps| >= 2
    requires ReadConjunction(Conjunction(ps[1..]) + rest) == Some((ps[1..], rest))
    ensures ReadConjunction(Conjunction(ps) + rest) == Some((ps, rest))
  {
    ConjunctionCons(ps, rest);
    ReadConjunctionCons(ps[0], Conjunction(ps[1..]) + rest);
    assert [ps[0]] + ps[1..] == ps;
  }

  /** A conjunction begins with its first condition's quoted column. */
  lemma ConjunctionStart(ps: seq<(string, string)>, rest: string)
    requires ps != []
    ensures (Conjunction(ps) + rest)[0] == '"'
  {
    if |ps| >= 2 {
      ConjunctionCons(ps, rest);
    } else {
      assert Conjunction(ps) == Equality(ps[0]);
    }
  }

  /** A key condition reads back to the pairs it was built from, whatever follows it. */
  lemma KeyClauseReadsBack(ps: seq<(string, string)>, rest: string)
    ensures ReadKeyClause(KeyClause(ps) + rest) == Some((ps, rest))
  {
    var t := KeyClause(ps) + rest;
    if ps == [] {
      assert t == "()" + rest;
      ExpectPrefix("()", rest);
    } else {
      var inner := Conjunction(ps) + (")" + rest);
      assert t == "(" + inner;
      ConjunctionStart(ps, ")" + rest);
      assert t[1] == inner[0];
      ExpectPrefix("(", inner);
      ConjunctionReadsBack(ps, ")" + rest);
      ExpectPrefix(")", rest);
    }
  }

  lemma DisjunctionCons(pss: seq<seq<(string, string)>>, rest: string)
    requires |pss| >= 2
    ensures Disjunction(pss) + rest == KeyClause(pss[0]) + (" OR " + (Disjunction(pss[1..]) + rest))
  {
    MapTail(KeyClause, pss);
    JoinCons(" OR ", KeyClauses(pss), rest);
  }

  /** A disjunction begins with the parenthesis of its first key condition. */
  lemma DisjunctionStart(pss: seq<seq<(string, string)>>, rest: string)
    requires pss != []
    ensures (Disjunction(pss) + rest)[0] == '('
  {
    if |pss| >= 2 {
      DisjunctionCons(pss, rest);
    } else {
      assert Disjunction(pss) == KeyClause(pss[0]);
    }
  }

  /** A key condition followed by ` OR ` and another one is read, then the
      reading goes on. */
  lemma ReadDisjunctionCons(ps: seq<(string, string)>, more: string, pss: seq<seq<(string, string)>>, t: string)
    requires more != [] && more[0] == '('
    requires ReadDisjunction(more) == Some(pss)
    requires t == KeyClause(ps) + (" OR " + more)
    ensures ReadDisjunction(t) == Some([ps] + pss)
  {
    KeyClauseReadsBack(ps, " OR " + more);
    ExpectPrefix(" OR ", more);
    assert t[0] == '(';
    assert more != ";";
  }

  /** The last key condition, followed by the final `;`. */
  lemma LastKeyClauseReadsBack(ps: seq<(string, string)>)
    ensures ReadDisjunction(KeyClause(ps) + ";") == Some([ps])
  {
    var t := KeyClause(ps) + ";";
    KeyClauseReadsBack(ps, ";");
    assert t[0] == '(';
  }

  /** The conditions of all keys read back in order. */
  lemma {:induction false} DisjunctionReadsBack(pss: seq<seq<(string, string)>>)
    ensures ReadDisjunction(Disjunction(pss) + ";") == Some(pss)
  {
    if |pss| == 0 {
      assert Disjunction(pss) + ";" == ";";
    } else if |pss| == 1 {
      assert Disjunction(pss) == KeyClause(pss[0]);
      LastKeyClauseReadsBack(pss[0]);
      assert [pss[0]] == pss;
    } else {
      DisjunctionReadsBack(pss[1..]);
      DisjunctionReadsBackStep(pss);
    }
  }

  /** The first key condition is read, then the others as before. */
  lemma DisjunctionReadsBackStep(pss: seq<seq<(string, string)>>)
    requires |pss| >= 2
    requires ReadDisjunction(Disjunction(pss[1..]) + ";") == Some(pss[1..])
    ensures ReadDisjunction(Disjunction(pss) + ";") == Some(pss)
  {
    DisjunctionCons(pss, ";");
    DisjunctionStart(pss[1..], ";");
    ReadDisjunctionCons(pss[0], Disjunction(pss[1..]) + ";", pss[1..], Disjunction(pss) + ";");
    assert [pss[0]] + pss[1..] == pss;
  }

  /** The key lookup names the table and asks, key by key, for exactly the
      column/value pairs the key decodes to. */
  lemma KeyQueryReadsBack(table: string, keys: seq<string>)
    requires KeyQuery(table, keys).Some?
    ensures ReadKeyQuery(KeyQuery(table, keys).value) == Some((table, PairLists(keys).value))
  {
    var pss := PairLists(keys).value;
    var q := KeyQuery(table, keys).value;
    var d := Disjunction(pss);
    Regroup("SELECT * FROM ", SqlIdentifier(table), " WHERE ", d, ";");
    HeadReadsBack(table, d + ";", q);
    DisjunctionReadsBack(pss);
  }

  /** `SELECT * FROM "table" WHERE ` in front of the conditions reads back
      to the table and the conditions. */
  lemma HeadReadsBack(table: string, where: string, q: string)
    requires q == "SELECT * FROM " + (SqlIdentifier(table) + (" WHERE " + where))
    ensures Expect("SELECT * FROM ", q) == Some(SqlIdentifier(table) + (" WHERE " + where))
    ensures ReadQuoted('"', SqlIdentifier(table) + (" WHERE " + where)) == Some((table, " WHERE " + where))
    ensures Expect(" WHERE ", " WHERE " + where) == Some(where)
  {
    ExpectPrefix("SELECT * FROM ", SqlIdentifier(table) + (" WHERE " + where));
    SqlIdentifierReadsBack(table, " WHERE " + where);
    ExpectPrefix(" WHERE ", where);
  }

  /** Asking for the keys of rows asks, row by row, for the key columns
      that have a value in that row, with those values. */
  lemma RowKeysLookup(table: string, cols: seq<string>, rows: seq<map<string, Option<string>>>, keys: seq<string>)
    requires |keys| == |rows|
    requires forall i :: 0 <= i < |rows| ==> keys[i] == KeyOf(cols, rows[i])
    ensures KeyQuery(table, keys).Some?
    ensures var r := ReadKeyQuery(KeyQuery(table, keys).value);
            r.Some? && r.value.0 == table && |r.value.1| == |rows| &&
            forall i :: 0 <= i < |rows| ==> r.value.1[i] == PresentPairs(cols, rows[i])
  {
    forall i | 0 <= i < |keys|
      ensures KeyPairs(keys[i]) == Some(PresentPairs(cols, rows[i]))
    {
      RowKeyRoundTrip(cols, rows[i]);
    }
    KeyQueryReadsBack(table, keys);
  }

  /** Without keys the statement has nothing after WHERE. */
  lemma NoKeysQuery(table: string)
    ensures KeyQuery(table, []) == Some(From(table) + " WHERE ;")
  {
    assert PairLists([]) == Some([]);
    assert Disjunction([]) == [];
    assert From(table) + " WHERE " + [] + ";" == From(table) + " WHERE ;";
  }

  /** A find predicate names its column and carries the translated search pattern. */
  lemma FindPredicateReadsBack(part: QueryPart, rest: string)
    ensures ReadFindPredicate(FindPredicate(part) + rest)
         == Some(((part.columnName, SqlSearchPattern(part.searchString)), rest))
  {
    var column, pattern := SqlIdentifier(part.columnName), SqlLiteral(SqlSearchPattern(part.searchString));
    var r4 := ") ESCAPE '\\')" + rest;
    var r3 := pattern + r4;
    var r2 := ") LIKE lower(" + r3;
    var r1 := column + r2;
    assert "(" + "lower(" == "(lower(" && ")" + " LIKE " + "lower(" == ") LIKE lower(";
    assert ") ESCAPE '\\'" + ")" == ") ESCAPE '\\')";
    RegroupPieces("(", "lower(", column, ")", " LIKE ", "lower(", pattern, ") ESCAPE '\\'", ")", rest,
                  "(lower(", ") LIKE lower(", ") ESCAPE '\\')");
    ExpectPrefix("(lower(", r1);
    SqlIdentifierReadsBack(part.columnName, r2);
    ExpectPrefix(") LIKE lower(", r3);
    SqlLiteralReadsBack(SqlSearchPattern(part.searchString), r4);
    ExpectPrefix(") ESCAPE '\\')", rest);
  }

  /** The listing statement names the table and nothing else. */
  lemma ContentsQueryReadsBack(table: string)
    ensures ReadContentsQuery(ContentsQuery(table)) == Some(table)
  {
    assert ContentsQuery(table) == "SELECT * FROM " + (SqlIdentifier(table) + ";");
    ExpectPrefix("SELECT * FROM ", SqlIdentifier(table) + ";");
    SqlIdentifierReadsBack(table, ";");
  }

  /** The column and pattern of each query part, in order. */
  function PartPattern(part: QueryPart): (string, string)
  {
    (part.columnName, SqlSearchPattern(part.searchString))
  }

  function PartPatterns(parts: seq<QueryPart>): seq<(string, string)>
  {
    Map(PartPattern, parts)
  }

  lemma {:induction false} FindPredicatesReadBack(parts: seq<QueryPart>)
    requires parts != []
    ensures ReadFindPredicates(Join(" AND ", FindPredicates(parts)) + ";") == Some(PartPatterns(parts))
  {
    var x := (parts[0].columnName, SqlSearchPattern(parts[0].searchString));
    if |parts| == 1 {
      assert Join(" AND ", FindPredicates(parts)) == FindPredicate(parts[0]);
      FindPredicateReadsBack(parts[0], ";");
      assert PartPatterns(parts) == [x];
    } else {
      var more := Join(" AND ", FindPredicates(parts[1..])) + ";";
      FindPredicatesCons(parts);
      FindPredicatesReadBack(parts[1..]);
      ReadFindPredicatesCons(parts[0], more);
      assert PartPatterns(parts) == [x] + PartPatterns(parts[1..]);
    }
  }

  lemma FindPredicatesCons(parts: seq<QueryPart>)
    requires |parts| >= 2
    ensures Join(" AND ", FindPredicates(parts)) + ";"
         == FindPredicate(parts[0]) + (" AND " + (Join(" AND ", FindPredicates(parts[1..])) + ";"))
  {
    MapTail(FindPredicate, parts);
    JoinCons(" AND ", FindPredicates(parts), ";");
  }

  lemma ReadFindPredicatesCons(part: QueryPart, more: string)
    ensures ReadFindPredicates(FindPredicate(part) + (" AND " + more))
         == match ReadFindPredicates(more)
            case None => None
            case Some(xs) => Some([(part.columnName, SqlSearchPattern(part.searchString))] + xs)
  {
    var tail := " AND " + more;
    FindPredicateReadsBack(part, tail);
    ExpectPrefix(" AND ", more);
    assert tail != ";";
  }

  /** A `find` statement reads back to the table and the column and
      pattern of each part. */
  lemma FindQueryPatterns(table: string, parts: seq<QueryPart>)
    requires parts != []
    ensures ReadFindQuery(FindQuery(table, parts).value) == Some((table, PartPatterns(parts)))
  {
    var q := FindQuery(table, parts).value;
    var j := Join(" AND ", FindPredicates(parts));
    Regroup("SELECT * FROM ", SqlIdentifier(table), " WHERE ", j, ";");
    HeadReadsBack(table, j + ";", q);
    FindPredicatesReadBack(parts);
  }

  /** A `find` statement names the table and, part by part and in order,
      the column and a pattern that, with both sides folded to lower case,
      matches just what the search string with `*` as wildcard matches. */
  lemma FindQueryReadsBack(table: string, parts: seq<QueryPart>)
    requires parts != []
    ensures var r := ReadFindQuery(FindQuery(table, parts).value);
            r.Some? && r.value.0 == table && |r.value.1| == |parts| &&
            forall i :: 0 <= i < |parts| ==>
              r.value.1[i].0 == parts[i].columnName &&
              LikeTokens(Lower(r.value.1[i].1)) == Some(GlobTokens(Lower(parts[i].searchString)))
  {
    FindQueryPatterns(table, parts);
    var ps := PartPatterns(parts);
    forall i | 0 <= i < |parts|
      ensures ps[i].0 == parts[i].columnName
      ensures LikeTokens(Lower(ps[i].1)) == Some(GlobTokens(Lower(parts[i].searchString)))
    {
      assert ps[i] == PartPattern(parts[i]);
      FindPredicateMeaning(parts[i].searchString);
    }
  }

  // ---------------------------------------------------------------------
  // The loops that build the statements

  lemma ConjunctionStep(open: string, ps: seq<(string, string)>, p: (string, string))
    ensures (if ps == [] then open else open + Conjunction(ps) + " AND ")
              + SqlIdentifier(p.0) + "=" + SqlLiteral(p.1)
         == open + Conjunction(ps + [p])
  {
    var before := if ps == [] then open else open + Conjunction(ps) + " AND ";
    AppendThree(before, SqlIdentifier(p.0), "=", SqlLiteral(p.1));
    MapSnoc(Equality, ps, p);
    JoinStep(open, " AND ", Equalities(ps), Equality(p), before);
  }

  lemma DisjunctionStep(head: string, pss: seq<seq<(string, string)>>, ps: seq<(string, string)>)
    ensures (if pss == [] then head else head + Disjunction(pss) + " OR ") + KeyClause(ps)
         == head + Disjunction(pss + [ps])
  {
    MapSnoc(KeyClause, pss, ps);
    JoinStep(head, " OR ", KeyClauses(pss), KeyClause(ps),
             if pss == [] then head else head + Disjunction(pss) + " OR ");
  }

  lemma PairListsSnoc(keys: seq<string>, k: nat, ps: seq<(string, string)>)
    requires k < |keys|
    requires PairLists(keys[..k]).Some?
    requires KeyPairs(keys[k]) == Some(ps)
    ensures PairLists(keys[..k + 1]) == Some(PairLists(keys[..k]).value + [ps])
  {
    var pre := PairLists(keys[..k]).value;
    assert forall j :: 0 <= j < k ==> keys[..k + 1][j] == keys[..k][j];
    assert PairLists(keys[..k + 1]).value == pre + [ps];
  }

  /** A key with a field that does not decode makes the whole lookup fail. */
  lemma MalformedKey(table: string, keys: seq<string>, k: nat)
    requires k < |keys| && KeyPairs(keys[k]).None?
    ensures KeyQuery(table, keys).None?
  {
  }

  /** The inner loop of `getDatasetsByKey`: appends to `buffy` the
      condition for one key, decoding fields `i-1` and `i` of the split key
      for every odd `i`; None where `decode` throws. */
  method AppendKeyClause(buffy: string, key: string) returns (r: Option<string>)
    ensures r.None? <==> KeyPairs(key).None?
    ensures r.Some? ==> r.value == buffy + KeyClause(KeyPairs(key).value)
  {
    var parts := Split(key, '#');
    var text := buffy + "(";
    ghost var open := text;
    ghost var ps: seq<(string, string)> := [];
    ghost var n := 0;
    var i := 1;
    while i < |parts|
      invariant i == 2 * n + 1 && 2 * n <= |parts|
      invariant |ps| == n
      invariant DecodedPairs(parts[..2 * n]) == Some(ps)
      invariant text == open + Conjunction(ps)
    {
      if i > 1 {
        text := text + " AND ";
      }
      var column := Decode(parts[i - 1]);
      if column.None? {
        MalformedPair(parts, n);
        return None;
      }
      text := text + SqlIdentifier(column.value);
      text := text + "=";
      var value := Decode(parts[i]);
      if value.None? {
        MalformedPair(parts, n);
        return None;
      }
      text := text + SqlLiteral(value.value);
      ghost var p := (column.value, value.value);
      ConjunctionStep(open, ps, p);
      DecodedPairsStep(parts, n, ps, column.value, value.value);
      ps := ps + [p];
      n := n + 1;
      i := i + 2;
    }
    DecodedPairsDone(parts, n);
    text := text + ")";
    r := Some(text);
  }

  /** The outer loop of `getDatasetsByKey`, which writes the key lookup:
      the condition of each key joined with ` OR `, then `;`. None where
      `decode` throws. */
  method KeyQueryText(table: string, keys: seq<string>) returns (r: Option<string>)
    ensures r == KeyQuery(table, keys)
  {
    var buffy := From(table) + " WHERE ";
    ghost var head := buffy;
    ghost var pss: seq<seq<(string, string)>> := [];
    var first := true;
    var k := 0;
    while k < |keys|
      invariant 0 <= k <= |keys|
      invariant first <==> k == 0
      invariant |pss| == k
      invariant PairLists(keys[..k]) == Some(pss)
      invariant buffy == head + Disjunction(pss)
    {
      if !first {
        buffy := buffy + " OR ";
      }
      first := false;
      ghost var beforeClause := buffy;
      var next := AppendKeyClause(buffy, keys[k]);
      if next.None? {
        MalformedKey(table, keys, k);
        return None;
      }
      buffy := next.value;
      ghost var ps := KeyPairs(keys[k]).value;
      DisjunctionStep(head, pss, ps);
      PairListsSnoc(keys, k, ps);
      pss := pss + [ps];
      k := k + 1;
    }
    assert keys[..k] == keys;
    buffy := buffy + ";";
    r := Some(buffy);
  }

  /** The pieces `find` appends for one part make up its predicate. */
  lemma FindPredicatePieces(before: string, part: QueryPart)
    ensures before + "(" + "lower(" + SqlIdentifier(part.columnName) + ")" + " LIKE " + "lower("
              + SqlLiteral(SqlSearchPattern(part.searchString)) + ") ESCAPE '\\'" + ")"
         == before + FindPredicate(part)
  {
    AppendPieces(before, "(", "lower(", SqlIdentifier(part.columnName), ")", " LIKE ", "lower(",
                 SqlLiteral(SqlSearchPattern(part.searchString)), ") ESCAPE '\\'", ")");
  }

  lemma FindStep(head: string, parts: seq<QueryPart>, k: nat, before: string)
    requires k < |parts|
    requires before == if k == 0 then head else head + Join(" AND ", FindPredicates(parts[..k])) + " AND "
    ensures before + FindPredicate(parts[k]) == head + Join(" AND ", FindPredicates(parts[..k + 1]))
  {
    FindPredicatesSnoc(parts, k);
    JoinStep(head, " AND ", FindPredicates(parts[..k]), FindPredicate(parts[k]), before);
  }

  lemma FindPredicatesSnoc(parts: seq<QueryPart>, k: nat)
    requires k < |parts|
    ensures FindPredicates(parts[..k + 1]) == FindPredicates(parts[..k]) + [FindPredicate(parts[k])]
  {
    MapPrefix(FindPredicate, parts, k);
  }

  /** The text after the loop of `find` is the statement. */
  lemma FindDone(table: string, parts: seq<QueryPart>, text: string)
    requires parts != []
    requires text == From(table) + " WHERE " + Join(" AND ", FindPredicates(parts[..|parts|]))
    ensures FindQuery(table, parts) == Some(text + ";")
  {
    assert parts[..|parts|] == parts;
  }

  /** The appends of `find` for one part: its predicate. */
  method AppendFindPredicate(buffy: string, part: QueryPart) returns (r: string)
    ensures r == buffy + FindPredicate(part)
  {
    r := buffy + "(";
    r := r + "lower(";
    r := r + SqlIdentifier(part.columnName);
    r := r + ")";
    r := r + " LIKE ";
    r := r + "lower(";
    r := r + SqlLiteral(SqlSearchPattern(part.searchString));
    r := r + ") ESCAPE '\\'";
    r := r + ")";
    FindPredicatePieces(buffy, part);
  }

  /** The loop of `find`: the predicate of each part, joined with ` AND `,
      appended to `buffy`. */
  method AppendFindPredicates(buffy: string, parts: seq<QueryPart>) returns (r: string)
    ensures r == buffy + Join(" AND ", FindPredicates(parts))
  {
    r := buffy;
    var first := true;
    var k := 0;
    while k < |parts|
      invariant 0 <= k <= |parts|
      invariant first <==> k == 0
      invariant r == buffy + Join(" AND ", FindPredicates(parts[..k]))
    {
      var part := parts[k];
      if !first {
        r := r + " AND ";
      }
      first := false;
      FindStep(buffy, parts, k, r);
      r := AppendFindPredicate(r, part);
      k := k + 1;
    }
    assert parts[..k] == parts;
  }

  /** `find`: nothing is sent for an empty query; otherwise the loop
      writes one predicate per part, joined with ` AND `, then `;`. */
  method FindQueryText(table: string, parts: seq<QueryPart>) returns (r: Option<string>)
    ensures r == FindQuery(table, parts)
  {
    if parts == [] {
      return None;
    }
    var buffy := AppendFindPredicates(From(table) + " WHERE ", parts);
    buffy := buffy + ";";
    r := Some(buffy);
  }
}
