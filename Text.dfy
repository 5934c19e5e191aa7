/** The java.lang.String operations the datasource relies on, for the
    single-character patterns it uses them with. */
module Text {

  /** `s.replace(c, repl)`, and `s.replaceAll(p, repl)` for a pattern `p` that
      matches exactly the character `c`: every `c` becomes `repl`. */
  function Replace(s: string, c: char, repl: string): (r: string)
    ensures c !in s ==> r == s
  {
    if s == [] then [] else (if s[0] == c then repl else [s[0]]) + Replace(s[1..], c, repl)
  }

  /** After the replacement, a character occurs only if the replacement
      text holds it or it occurred in `s` and is not the replaced one. */
  lemma {:induction false} ReplaceOccurrences(s: string, c: char, repl: string, x: char)
    ensures x in Replace(s, c, repl) ==> x in repl || (x in s && x != c)
  {
    if s != [] {
      ReplaceOccurrences(s[1..], c, repl, x);
    }
  }

  lemma ReplaceCons(x: char, s: string, c: char, repl: string)
    ensures Replace([x] + s, c, repl) == (if x == c then repl else [x]) + Replace(s, c, repl)
  {
    assert ([x] + s)[1..] == s;
  }

  /** Replacing is done character by character, so it distributes over concatenation. */
  lemma {:induction false} ReplaceAppend(a: string, b: string, c: char, repl: string)
    ensures Replace(a + b, c, repl) == Replace(a, c, repl) + Replace(b, c, repl)
  {
    if a == [] {
      assert a + b == b;
    } else {
      assert (a + b)[1..] == a[1..] + b;
      ReplaceAppend(a[1..], b, c, repl);
    }
  }

  /** `s.indexOf(c, from)`: the first position at or after `from` that holds `c`, or -1. */
  function IndexOf(s: string, c: char, from: nat): (r: int)
    ensures r == -1 || from <= r < |s|
    ensures r == -1 ==> forall k :: from <= k < |s| ==> s[k] != c
    ensures r != -1 ==> s[r] == c && forall k :: from <= k < r ==> s[k] != c
    decreases |s| - from
  {
    if from >= |s| then -1 else if s[from] == c then from else IndexOf(s, c, from + 1)
  }

  /** `s.split(sep, -1)` for a separator that is one plain character: the
      fields between the separators, empty ones (also trailing ones) kept. */
  function Split(s: string, sep: char): (r: seq<string>)
    ensures |r| >= 1
    ensures forall f :: f in r ==> sep !in f
  {
    if s == [] then [[]]
    else
      var rest := Split(s[1..], sep);
      if s[0] == sep then [[]] + rest else [[s[0]] + rest[0]] + rest[1..]
  }

  /** The strings of `xs` with `sep` between neighbours: what the source's
      loops with a `first` flag append to their StringBuilder. */
  function Join(sep: string, xs: seq<string>): string
  {
    if |xs| == 0 then [] else if |xs| == 1 then xs[0] else xs[0] + sep + Join(sep, xs[1..])
  }

  lemma {:induction false} JoinSnoc(sep: string, xs: seq<string>, x: string)
    ensures Join(sep, xs + [x]) == if |xs| == 0 then x else Join(sep, xs) + sep + x
  {
    if |xs| == 0 {
      assert xs + [x] == [x];
    } else if |xs| == 1 {
      assert (xs + [x])[1..] == [x];
    } else {
      assert (xs + [x])[1..] == xs[1..] + [x];
      JoinSnoc(sep, xs[1..], x);
    }
  }

  /** Appending the separator (except before the first element) and then
      the next element extends a joined text by that element. */
  lemma JoinStep(head: string, sep: string, xs: seq<string>, x: string, before: string)
    requires before == if xs == [] then head else head + Join(sep, xs) + sep
    ensures before + x == head + Join(sep, xs + [x])
  {
    JoinSnoc(sep, xs, x);
    if xs != [] {
      var j := Join(sep, xs);
      assert before + x == head + (j + sep + x);
    }
  }

  /** Five strings concatenated left to right, regrouped from the right. */
  lemma Regroup(a: string, b: string, c: string, d: string, e: string)
    ensures a + b + c + d + e == a + (b + (c + (d + e)))
  {
  }

  /** Appending three pieces one after the other appends their concatenation. */
  lemma AppendThree(b: string, x1: string, x2: string, x3: string)
    ensures b + x1 + x2 + x3 == b + (x1 + x2 + x3)
  {
  }

  /** Appending nine pieces one after the other appends their concatenation. */
  lemma AppendPieces(b: string, x1: string, x2: string, x3: string, x4: string, x5: string,
                     x6: string, x7: string, x8: string, x9: string)
    ensures b + x1 + x2 + x3 + x4 + x5 + x6 + x7 + x8 + x9
         == b + (x1 + x2 + x3 + x4 + x5 + x6 + x7 + x8 + x9)
  {
  }

  /** Nine pieces followed by `rest`, regrouped as five: the first two,
      the third, the next three, the seventh, the last two and `rest`. */
  lemma RegroupPieces(x1: string, x2: string, x3: string, x4: string, x5: string, x6: string,
                      x7: string, x8: string, x9: string, rest: string, y1: string, y2: string, y3: string)
    requires y1 == x1 + x2 && y2 == x4 + x5 + x6 && y3 == x8 + x9
    ensures x1 + x2 + x3 + x4 + x5 + x6 + x7 + x8 + x9 + rest == y1 + (x3 + (y2 + (x7 + (y3 + rest))))
  {
  }

  /** Joining at least two strings: the first, the separator, then the
      rest joined, whatever follows. */
  lemma JoinCons(sep: string, xs: seq<string>, t: string)
    requires |xs| >= 2
    ensures Join(sep, xs) + t == xs[0] + (sep + (Join(sep, xs[1..]) + t))
  {
    var j := Join(sep, xs[1..]);
    assert Join(sep, xs) + t == xs[0] + sep + j + t;
  }

  /** `f` applied to each element, in order. */
  function Map<A, B>(f: A -> B, xs: seq<A>): (ys: seq<B>)
    ensures |ys| == |xs|
    ensures forall i :: 0 <= i < |xs| ==> ys[i] == f(xs[i])
  {
    if xs == [] then [] else [f(xs[0])] + Map(f, xs[1..])
  }

  lemma MapTail<A, B>(f: A -> B, xs: seq<A>)
    requires xs != []
    ensures Map(f, xs)[1..] == Map(f, xs[1..])
  {
  }

  lemma {:induction false} MapSnoc<A, B>(f: A -> B, xs: seq<A>, x: A)
    ensures Map(f, xs + [x]) == Map(f, xs) + [f(x)]
  {
    if xs != [] {
      assert (xs + [x])[1..] == xs[1..] + [x];
      MapSnoc(f, xs[1..], x);
    } else {
      assert xs + [x] == [x];
    }
  }

  lemma MapPrefix<A, B>(f: A -> B, xs: seq<A>, k: nat)
    requires k < |xs|
    ensures Map(f, xs[..k + 1]) == Map(f, xs[..k]) + [f(xs[k])]
  {
    assert xs[..k + 1] == xs[..k] + [xs[k]];
    MapSnoc(f, xs[..k], xs[k]);
  }

  /** A field that holds no separator is split off whole. */
  lemma {:induction false} SplitField(x: string, sep: char, rest: string)
    requires sep !in x
    ensures Split(x + [sep] + rest, sep) == [x] + Split(rest, sep)
  {
    if x == [] {
      assert x + [sep] + rest == [sep] + rest;
      assert ([sep] + rest)[1..] == rest;
    } else {
      assert (x + [sep] + rest)[1..] == x[1..] + [sep] + rest;
      SplitField(x[1..], sep, rest);
      assert [x[0]] + x[1..] == x;
    }
  }

  /** Two fields without the separator, each followed by it, are split off whole. */
  lemma SplitFieldPair(a: string, b: string, rest: string, sep: char)
    requires sep !in a && sep !in b
    ensures Split(a + [sep] + b + [sep] + rest, sep) == [a, b] + Split(rest, sep)
  {
    assert a + [sep] + b + [sep] + rest == a + [sep] + (b + [sep] + rest);
    SplitField(a, sep, b + [sep] + rest);
    SplitField(b, sep, rest);
  }

  /** Splitting undoes joining with the separator, for fields without it. */
  lemma {:induction false} SplitJoin(fs: seq<string>, sep: char)
    requires |fs| >= 1
    requires forall f :: f in fs ==> sep !in f
    ensures Split(Join([sep], fs), sep) == fs
  {
    if |fs| == 1 {
      SplitNoSeparator(fs[0], sep);
    } else {
      assert fs[1..][0] in fs;
      assert forall f :: f in fs[1..] ==> f in fs;
      SplitJoin(fs[1..], sep);
      SplitField(fs[0], sep, Join([sep], fs[1..]));
      assert fs == [fs[0]] + fs[1..];
    }
  }

  lemma {:induction false} SplitNoSeparator(s: string, sep: char)
    requires sep !in s
    ensures Split(s, sep) == [s]
  {
    if s != [] {
      SplitNoSeparator(s[1..], sep);
      assert [s[0]] + s[1..] == s;
    }
  }

  /** Joining with the separator undoes splitting. */
  lemma {:induction false} JoinSplit(s: string, sep: char)
    ensures Join([sep], Split(s, sep)) == s
  {
    if s != [] {
      JoinSplit(s[1..], sep);
      var rest := Split(s[1..], sep);
      if s[0] == sep {
        assert ([[]] + rest)[1..] == rest;
        assert [sep] + s[1..] == s;
      } else {
        var r := [[s[0]] + rest[0]] + rest[1..];
        if |rest| == 1 {
          assert [s[0]] + s[1..] == s;
        } else {
          assert r[1..] == rest[1..];
          assert rest == [rest[0]] + rest[1..];
          assert Join([sep], rest) == rest[0] + [sep] + Join([sep], rest[1..]);
          assert [s[0]] + s[1..] == s;
        }
      }
    }
  }
}
