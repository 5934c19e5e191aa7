/** The SQL text builders of OOoDatasource: quoting of literals
    (`sqlLiteral`) and identifiers (`sqlIdentifier`), and the translation of
    the caller's `*` wildcard into a LIKE pattern (`sqlSearchPattern`). Each
    is a chain of `replaceAll` calls; next to them stand the reading rules
    of SQL that give their output its meaning. */
module SqlText {
  import opened Outcomes
  import opened Text

  /** `s` between two `q`, with every `q` inside doubled. */
  function Quote(q: char, s: string): (r: string)
    ensures |r| >= 2 && r[0] == q && r[|r| - 1] == q
  {
    [q] + Replace(s, q, [q, q]) + [q]
  }

  /** `sqlLiteral`: a string literal, which begins and ends with an apostrophe. */
  function SqlLiteral(s: string): (r: string)
    ensures |r| >= 2 && r[0] == '\'' && r[|r| - 1] == '\''
  {
    Quote('\'', s)
  }

  /** `sqlIdentifier`: a delimited identifier, which begins and ends with a double quote. */
  function SqlIdentifier(s: string): (r: string)
    ensures |r| >= 2 && r[0] == '"' && r[|r| - 1] == '"'
  {
    Quote('"', s)
  }

  function PrefixContent(p: string, o: Option<(string, string)>): Option<(string, string)>
  {
    match o
    case None => None
    case Some((content, rest)) => Some((p + content, rest))
  }

  /** How SQL reads a token delimited by `q` at the start of `t`, where a
      doubled `q` stands for one `q` inside: the token's content and the text
      after its closing delimiter, or None if `t` does not start with a
      complete token. */
  function ReadQuoted(q: char, t: string): (r: Option<(string, string)>)
    ensures r.Some? ==> |r.value.1| < |t|
  {
    if t == [] || t[0] != q then None else ReadQuotedRest(q, t[1..])
  }

  /** The rest of a delimited token, after its opening delimiter. */
  function ReadQuotedRest(q: char, t: string): (r: Option<(string, string)>)
    ensures r.Some? ==> |r.value.1| < |t|
    decreases |t|
  {
    if t == [] then None
    else if t[0] != q then PrefixContent([t[0]], ReadQuotedRest(q, t[1..]))
    else if |t| >= 2 && t[1] == q then PrefixContent([q], ReadQuotedRest(q, t[2..]))
    else Some(([], t[1..]))
  }

  /** One character of the quoted text, doubled if it is the delimiter, is
      read as that character. */
  lemma ReadQuotedRestCons(q: char, x: char, tail: string)
    ensures ReadQuotedRest(q, (if x == q then [q, q] else [x]) + tail) == PrefixContent([x], ReadQuotedRest(q, tail))
  {
    var t := (if x == q then [q, q] else [x]) + tail;
    if x == q {
      assert t[2..] == tail;
    } else {
      assert t[1..] == tail;
    }
  }

  lemma {:induction false} QuotedRestReadsBack(q: char, s: string, rest: string)
    requires rest == [] || rest[0] != q
    ensures ReadQuotedRest(q, Replace(s, q, [q, q]) + [q] + rest) == Some((s, rest))
  {
    if s == [] {
      var t := Replace(s, q, [q, q]) + [q] + rest;
      assert t == [q] + rest;
      assert t[1..] == rest;
    } else {
      QuotedRestReadsBack(q, s[1..], rest);
      QuotedRestStep(q, s[0], s[1..], rest);
      assert [s[0]] + s[1..] == s;
    }
  }

  /** The first character of the quoted text is read, then the others as before. */
  lemma QuotedRestStep(q: char, x: char, xs: string, rest: string)
    requires ReadQuotedRest(q, Replace(xs, q, [q, q]) + [q] + rest) == Some((xs, rest))
    ensures ReadQuotedRest(q, Replace([x] + xs, q, [q, q]) + [q] + rest) == Some(([x] + xs, rest))
  {
    ReplaceCons(x, xs, q, [q, q]);
    var head := if x == q then [q, q] else [x];
    AppendThree(head, Replace(xs, q, [q, q]), [q], rest);
    ReadQuotedRestCons(q, x, Replace(xs, q, [q, q]) + [q] + rest);
  }

  /** Quoting is safe whatever `s` holds: SQL reads the quoted token back as
      exactly `s` and stops right at its end, provided the text after it does
      not itself start with the delimiter (two adjacent tokens would read as one). */
  lemma QuoteReadsBack(q: char, s: string, rest: string)
    requires rest == [] || rest[0] != q
    ensures ReadQuoted(q, Quote(q, s) + rest) == Some((s, rest))
  {
    var t := Quote(q, s) + rest;
    assert t[1..] == Replace(s, q, [q, q]) + [q] + rest;
    QuotedRestReadsBack(q, s, rest);
  }

  lemma SqlLiteralReadsBack(s: string, rest: string)
    requires rest == [] || rest[0] != '\''
    ensures ReadQuoted('\'', SqlLiteral(s) + rest) == Some((s, rest))
  {
    QuoteReadsBack('\'', s, rest);
  }

  lemma SqlIdentifierReadsBack(s: string, rest: string)
    requires rest == [] || rest[0] != '"'
    ensures ReadQuoted('"', SqlIdentifier(s) + rest) == Some((s, rest))
  {
    QuoteReadsBack('"', s, rest);
  }

  /** `sqlSearchPattern`: `\` becomes `\\`, then `_` becomes `\_`, then `%`
      becomes `\%`, and last `*` becomes `%`. */
  function SqlSearchPattern(g: string): string
  {
    Replace(Replace(Replace(Replace(g, '\\', "\\\\"), '_', "\\_"), '%', "\\%"), '*', "%")
  }

  /** No `*` is left in a search pattern. */
  lemma SearchPatternHasNoStar(g: string)
    ensures '*' !in SqlSearchPattern(g)
  {
    ReplaceOccurrences(Replace(Replace(Replace(g, '\\', "\\\\"), '_', "\\_"), '%', "\\%"), '*', "%", '*');
  }

  /** What `sqlSearchPattern` makes of one character. */
  function PatternChar(x: char): string
  {
    if x == '\\' then "\\\\"
    else if x == '_' then "\\_"
    else if x == '%' then "\\%"
    else if x == '*' then "%"
    else [x]
  }

  /** Each replacement works character by character, so the chain
      distributes over concatenation. */
  lemma SearchPatternAppend(a: string, b: string)
    ensures SqlSearchPattern(a + b) == SqlSearchPattern(a) + SqlSearchPattern(b)
  {
    var a1, b1 := Replace(a, '\\', "\\\\"), Replace(b, '\\', "\\\\");
    var a2, b2 := Replace(a1, '_', "\\_"), Replace(b1, '_', "\\_");
    var a3, b3 := Replace(a2, '%', "\\%"), Replace(b2, '%', "\\%");
    ReplaceAppend(a, b, '\\', "\\\\");
    ReplaceAppend(a1, b1, '_', "\\_");
    ReplaceAppend(a2, b2, '%', "\\%");
    ReplaceAppend(a3, b3, '*', "%");
  }

  /** No replacement sees the output of an earlier one: one character
      becomes its own escape. */
  lemma SearchPatternChar(x: char)
    ensures SqlSearchPattern([x]) == PatternChar(x)
  {
    var r1 := Replace([x], '\\', "\\\\");
    var r2 := Replace(r1, '_', "\\_");
    var r3 := Replace(r2, '%', "\\%");
    ReplaceCons(x, [], '\\', "\\\\");
    if x == '\\' {
      assert r1 == ['\\'] + ['\\'];
      ReplaceCons('\\', ['\\'], '_', "\\_");
      ReplaceCons('\\', [], '_', "\\_");
      ReplaceCons('\\', ['\\'], '%', "\\%");
      ReplaceCons('\\', [], '%', "\\%");
      ReplaceCons('\\', ['\\'], '*', "%");
      ReplaceCons('\\', [], '*', "%");
    } else {
      ReplaceCons(x, [], '_', "\\_");
      if x == '_' {
        assert r2 == ['\\'] + ['_'];
        ReplaceCons('\\', ['_'], '%', "\\%");
        ReplaceCons('_', [], '%', "\\%");
        ReplaceCons('\\', ['_'], '*', "%");
        ReplaceCons('_', [], '*', "%");
      } else {
        ReplaceCons(x, [], '%', "\\%");
        if x == '%' {
          assert r3 == ['\\'] + ['%'];
          ReplaceCons('\\', ['%'], '*', "%");
          ReplaceCons('%', [], '*', "%");
        } else {
          ReplaceCons(x, [], '*', "%");
        }
      }
    }
  }

  lemma SearchPatternCons(x: char, g: string)
    ensures SqlSearchPattern([x] + g) == PatternChar(x) + SqlSearchPattern(g)
  {
    SearchPatternAppend([x], g);
    SearchPatternChar(x);
  }

  /** One element of a LIKE pattern. */
  datatype PatternToken = AnyString | AnyChar | Exactly(c: char)

  function PrefixTokens(ts: seq<PatternToken>, o: Option<seq<PatternToken>>): Option<seq<PatternToken>>
  {
    match o
    case None => None
    case Some(us) => Some(ts + us)
  }

  /** How `LIKE ... ESCAPE '\'` reads a pattern: `\` takes the next character
      literally, an unescaped `%` stands for any string and an unescaped `_`
      for any one character; a `\` at the very end is malformed. */
  function LikeTokens(p: string): Option<seq<PatternToken>>
    decreases |p|
  {
    if p == [] then Some([])
    else if p[0] == '\\' then
      if |p| == 1 then None else PrefixTokens([Exactly(p[1])], LikeTokens(p[2..]))
    else if p[0] == '%' then PrefixTokens([AnyString], LikeTokens(p[1..]))
    else if p[0] == '_' then PrefixTokens([AnyChar], LikeTokens(p[1..]))
    else PrefixTokens([Exactly(p[0])], LikeTokens(p[1..]))
  }

  /** What the caller's search string means: `*` stands for any string and
      every other character, `%` and `_` included, for itself. */
  function GlobTokens(g: string): (ts: seq<PatternToken>)
    ensures |ts| == |g|
    ensures forall i :: 0 <= i < |g| ==> ts[i] == if g[i] == '*' then AnyString else Exactly(g[i])
  {
    if g == [] then [] else [if g[0] == '*' then AnyString else Exactly(g[0])] + GlobTokens(g[1..])
  }

  /** The translated pattern means exactly what the search string meant:
      no unescaped `_` is left, and the only unescaped `%` are the ones that
      came from `*`. */
  lemma {:induction false} SearchPatternTokens(g: string)
    ensures LikeTokens(SqlSearchPattern(g)) == Some(GlobTokens(g))
  {
    if g == [] {
      assert SqlSearchPattern(g) == [];
    } else {
      SearchPatternCons(g[0], g[1..]);
      assert [g[0]] + g[1..] == g;
      SearchPatternTokens(g[1..]);
      var p := SqlSearchPattern(g);
      var x := g[0];
      if x == '\\' || x == '_' || x == '%' {
        assert p[0] == '\\' && p[1] == x;
        assert p[2..] == SqlSearchPattern(g[1..]);
      } else {
        assert p[1..] == SqlSearchPattern(g[1..]);
      }
    }
  }

  /** The translated pattern has no single-character wildcard, and its
      any-string wildcards stand exactly where the search string has `*`. */
  lemma SearchPatternWildcards(g: string)
    ensures LikeTokens(SqlSearchPattern(g)).Some?
    ensures var ts := LikeTokens(SqlSearchPattern(g)).value;
            |ts| == |g| && AnyChar !in ts &&
            forall i :: 0 <= i < |g| ==> (ts[i] == AnyString <==> g[i] == '*')
  {
    SearchPatternTokens(g);
  }

  /** Whether the value `v` matches a pattern. */
  predicate Matches(ts: seq<PatternToken>, v: string)
    decreases |ts| + |v|
  {
    if ts == [] then v == []
    else match ts[0]
      case AnyString => Matches(ts[1..], v) || (v != [] && Matches(ts, v[1..]))
      case AnyChar => v != [] && Matches(ts[1..], v[1..])
      case Exactly(c) => v != [] && v[0] == c && Matches(ts[1..], v[1..])
  }

  /** A search string without `*` matches only itself, whatever `%`, `_` or
      `\` it holds. */
  lemma {:induction false} LiteralSearchMatchesOnlyItself(g: string, v: string)
    requires '*' !in g
    ensures Matches(GlobTokens(g), v) <==> v == g
  {
    if g != [] {
      var ts := GlobTokens(g);
      assert ts[0] == Exactly(g[0]);
      assert ts[1..] == GlobTokens(g[1..]);
      if v != [] {
        LiteralSearchMatchesOnlyItself(g[1..], v[1..]);
        assert v == [v[0]] + v[1..];
        assert g == [g[0]] + g[1..];
      }
    }
  }

  /** ASCII case folding, for the `lower(...)` on both sides of the LIKE. */
  function LowerChar(x: char): char
  {
    if 'A' <= x <= 'Z' then (x as int - 'A' as int + 'a' as int) as char else x
  }

  function Lower(s: string): (r: string)
    ensures |r| == |s| && forall i :: 0 <= i < |s| ==> r[i] == LowerChar(s[i])
  {
    if s == [] then [] else [LowerChar(s[0])] + Lower(s[1..])
  }

  /** Lower-casing the translated pattern is translating the lower-cased
      search string: the characters the translation touches have no case. */
  lemma {:induction false} LowerSearchPattern(g: string)
    ensures Lower(SqlSearchPattern(g)) == SqlSearchPattern(Lower(g))
  {
    if g == [] {
      assert SqlSearchPattern(g) == [];
    } else {
      var x, xs := g[0], g[1..];
      assert g == [x] + xs;
      LowerAppend([x], xs);
      calc {
        Lower(SqlSearchPattern(g));
        { SearchPatternCons(x, xs); }
        Lower(PatternChar(x) + SqlSearchPattern(xs));
        { LowerAppend(PatternChar(x), SqlSearchPattern(xs)); }
        Lower(PatternChar(x)) + Lower(SqlSearchPattern(xs));
        { LowerPatternChar(x); LowerSearchPattern(xs); }
        PatternChar(LowerChar(x)) + SqlSearchPattern(Lower(xs));
        { SearchPatternCons(LowerChar(x), Lower(xs)); }
        SqlSearchPattern([LowerChar(x)] + Lower(xs));
      }
    }
  }

  lemma LowerPatternChar(x: char)
    ensures Lower(PatternChar(x)) == PatternChar(LowerChar(x))
  {
    if x == '\\' || x == '_' || x == '%' {
      assert Lower(PatternChar(x)) == [LowerChar('\\')] + Lower([x]);
    } else if x == '*' {
      assert Lower("%") == [LowerChar('%')] + Lower([]);
    } else {
      assert Lower([x]) == [LowerChar(x)] + Lower([]);
    }
  }

  lemma LowerAppend(a: string, b: string)
    ensures Lower(a + b) == Lower(a) + Lower(b)
  {
    var l, r := Lower(a + b), Lower(a) + Lower(b);
    assert |l| == |r|;
    forall i | 0 <= i < |l|
      ensures l[i] == r[i]
    {
      if i < |a| {
        assert (a + b)[i] == a[i];
      } else {
        assert (a + b)[i] == b[i - |a|];
      }
    }
  }

  /** What a `find` predicate `lower(column) LIKE lower(pattern) ESCAPE '\'`
      accepts: the column value matches the search string, ignoring case. */
  lemma FindPredicateMeaning(g: string)
    ensures LikeTokens(Lower(SqlSearchPattern(g))) == Some(GlobTokens(Lower(g)))
  {
    LowerSearchPattern(g);
    SearchPatternTokens(Lower(g));
  }
}
