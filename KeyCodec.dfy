/** The escaping that lets column names and values sit between the `#`
    separators of a row key (OOoDatasource.encode and OOoDatasource.decode):
    `%` is the escape marker, `%%` stands for `%` and `%r` for `#`. */
module KeyCodec {
  import opened Outcomes
  import opened Text

  /** `encode`: first every `%` is doubled, then every `#` becomes `%r`.
      No separator survives. */
  function Encode(s: string): string
  {
    Replace(Replace(s, '%', "%%"), '#', "%r")
  }

  /** An encoded string never holds the field separator `#`. */
  lemma EncodeHasNoMarker(s: string)
    ensures '#' !in Encode(s)
  {
    ReplaceOccurrences(Replace(s, '%', "%%"), '#', "%r", '#');
  }

  /** What `encode` makes of one character. */
  function EscapeChar(x: char): string
  {
    if x == '%' then "%%" else if x == '#' then "%r" else [x]
  }

  /** The two replacements never see each other's output, so `encode`
      works character by character. */
  lemma EncodeCons(x: char, s: string)
    ensures Encode([x] + s) == EscapeChar(x) + Encode(s)
  {
    ReplaceCons(x, s, '%', "%%");
    var head := if x == '%' then "%%" else [x];
    ReplaceAppend(head, Replace(s, '%', "%%"), '#', "%r");
    if x == '#' {
      ReplaceCons('#', [], '#', "%r");
    }
  }

  /** The value (or absence of one) an optional decoding gets after `p` is put in front. */
  function Prefixed(p: string, o: Option<string>): Option<string>
  {
    match o
    case None => None
    case Some(t) => Some(p + t)
  }

  /** What `decode` yields, read left to right: `%r` stands for `#`; `%`
      followed by any other character stands for `%` (`decode` deletes the
      character after the marker and keeps the marker); a `%` at the very end
      makes `decode` throw (`charAt` past the end), which is None here. */
  function Decoded(t: string): Option<string>
    decreases |t|
  {
    if t == [] then Some([])
    else if t[0] != '%' then Prefixed([t[0]], Decoded(t[1..]))
    else if |t| == 1 then None
    else Prefixed(if t[1] == 'r' then "#" else "%", Decoded(t[2..]))
  }

  /** The strings `encode` can produce: no `#`, and every `%` opens one of
      the pairs `%%` and `%r`. */
  predicate WellEscaped(t: string)
    decreases |t|
  {
    if t == [] then true
    else if t[0] == '%' then |t| >= 2 && (t[1] == '%' || t[1] == 'r') && WellEscaped(t[2..])
    else t[0] != '#' && WellEscaped(t[1..])
  }

  lemma PrefixedPrefixed(a: string, b: string, o: Option<string>)
    ensures Prefixed(a, Prefixed(b, o)) == Prefixed(a + b, o)
  {
    if o.Some? {
      assert a + (b + o.value) == (a + b) + o.value;
    }
  }

  lemma PrefixedEmpty(o: Option<string>)
    ensures Prefixed([], o) == o
  {
    if o.Some? {
      assert [] + o.value == o.value;
    }
  }

  /** A stretch without escape markers is copied unchanged. */
  lemma {:induction false} DecodedPlain(x: string, y: string)
    requires '%' !in x
    ensures Decoded(x + y) == Prefixed(x, Decoded(y))
  {
    if x == [] {
      assert x + y == y;
      PrefixedEmpty(Decoded(y));
    } else {
      assert (x + y)[1..] == x[1..] + y;
      DecodedPlain(x[1..], y);
      PrefixedPrefixed([x[0]], x[1..], Decoded(y));
      assert [x[0]] + x[1..] == x;
    }
  }

  /** The round trip the row keys rely on: `decode(encode(s)) == s` for every `s`. */
  lemma {:induction false} DecodeEncode(s: string)
    ensures Decoded(Encode(s)) == Some(s)
  {
    if s == [] {
      assert Encode(s) == [];
    } else {
      EncodeCons(s[0], s[1..]);
      assert [s[0]] + s[1..] == s;
      DecodeEncode(s[1..]);
      var e := Encode(s);
      if s[0] == '%' || s[0] == '#' {
        assert e[2..] == Encode(s[1..]);
      } else {
        assert e[1..] == Encode(s[1..]);
      }
    }
  }

  /** Everything `encode` yields is well escaped. */
  lemma {:induction false} EncodeWellEscaped(s: string)
    ensures WellEscaped(Encode(s))
  {
    if s == [] {
      assert Encode(s) == [];
    } else {
      EncodeCons(s[0], s[1..]);
      assert [s[0]] + s[1..] == s;
      EncodeWellEscaped(s[1..]);
      var e := Encode(s);
      if s[0] == '%' || s[0] == '#' {
        assert e[2..] == Encode(s[1..]);
      } else {
        assert e[1..] == Encode(s[1..]);
      }
    }
  }

  /** Conversely, every well-escaped string is what `encode` makes of its
      decoding, so WellEscaped is exactly the image of `encode`. */
  lemma {:induction false} EncodeDecode(t: string)
    requires WellEscaped(t)
    ensures Decoded(t).Some? && Encode(Decoded(t).value) == t
  {
    if t != [] {
      if t[0] == '%' {
        EncodeDecode(t[2..]);
        var d := Decoded(t[2..]).value;
        var x := if t[1] == 'r' then '#' else '%';
        EncodeCons(x, d);
        assert [t[0], t[1]] + t[2..] == t;
      } else {
        EncodeDecode(t[1..]);
        var d := Decoded(t[1..]).value;
        EncodeCons(t[0], d);
        assert [t[0]] + t[1..] == t;
      }
    }
  }

  /** Input that ends in the middle of an escape makes `decode` throw. */
  lemma {:induction false} TrailingMarkerFails(t: string)
    requires WellEscaped(t)
    ensures Decoded(t + "%") == None
  {
    if t == [] {
      assert t + "%" == "%";
    } else if t[0] == '%' {
      assert (t + "%")[2..] == t[2..] + "%";
      TrailingMarkerFails(t[2..]);
    } else {
      assert (t + "%")[1..] == t[1..] + "%";
      TrailingMarkerFails(t[1..]);
    }
  }

  /** Different strings have different encodings. */
  lemma EncodeInjective(a: string, b: string)
    requires Encode(a) == Encode(b)
    ensures a == b
  {
    DecodeEncode(a);
    DecodeEncode(b);
  }

  /** One marker handled: the plain stretch before it is copied and the
      marker with the character after it becomes one character `y`. */
  lemma DecodeStep(buffy: string, i: nat, p: nat, y: char)
    requires i <= p && p + 1 < |buffy|
    requires buffy[p] == '%' && '%' !in buffy[i..p]
    requires y == if buffy[p + 1] == 'r' then '#' else '%'
    ensures var next := buffy[..p] + [y] + buffy[p + 2..];
            Prefixed(buffy[..i], Decoded(buffy[i..])) == Prefixed(next[..p + 1], Decoded(next[p + 1..]))
  {
    var next := buffy[..p] + [y] + buffy[p + 2..];
    var tail := buffy[p..];
    assert buffy[i..] == buffy[i..p] + tail;
    DecodedPlain(buffy[i..p], tail);
    assert tail[2..] == buffy[p + 2..];
    assert Decoded(tail) == Prefixed([y], Decoded(buffy[p + 2..]));
    PrefixedPrefixed(buffy[..i], buffy[i..p], Decoded(tail));
    assert buffy[..i] + buffy[i..p] == buffy[..p];
    PrefixedPrefixed(buffy[..p], [y], Decoded(buffy[p + 2..]));
    assert next[..p + 1] == buffy[..p] + [y];
    assert next[p + 1..] == buffy[p + 2..];
  }

  /** A marker as the last character: the rest does not decode. */
  lemma DecodeTrailing(buffy: string, i: nat, p: nat)
    requires i <= p && p + 1 == |buffy|
    requires buffy[p] == '%' && '%' !in buffy[i..p]
    ensures Decoded(buffy[i..]) == None
  {
    assert buffy[i..] == buffy[i..p] + buffy[p..];
    DecodedPlain(buffy[i..p], buffy[p..]);
    assert buffy[p..] == "%";
  }

  /** No marker left: the rest is copied unchanged. */
  lemma DecodeDone(buffy: string, i: nat)
    requires i <= |buffy| && '%' !in buffy[i..]
    ensures Prefixed(buffy[..i], Decoded(buffy[i..])) == Some(buffy)
  {
    DecodedPlain(buffy[i..], []);
    assert buffy[i..] + [] == buffy[i..];
    assert buffy[..i] + buffy[i..] == buffy;
  }

  /** `decode` as written: a StringBuilder edited in place while an index
      moves past each marker it has handled. */
  method Decode(str: string) returns (r: Option<string>)
    ensures r == Decoded(str)
  {
    var buffy := str;
    var i := 0;
    var p := IndexOf(buffy, '%', i);
    assert buffy[i..] == str;
    PrefixedEmpty(Decoded(str));
    while 0 <= p
      invariant 0 <= i <= |buffy|
      invariant p == IndexOf(buffy, '%', i)
      invariant Decoded(str) == Prefixed(buffy[..i], Decoded(buffy[i..]))
      decreases |buffy| - i
    {
      assert '%' !in buffy[i..p];
      if p + 1 == |buffy| {
        DecodeTrailing(buffy, i, p);
        return None;
      }
      var y := if buffy[p + 1] == 'r' then '#' else '%';
      DecodeStep(buffy, i, p, y);
      i := p + 1;
      if buffy[i] == 'r' {
        buffy := buffy[..i - 1] + "#" + buffy[i + 1..];
      } else {
        assert buffy[..i] == buffy[..p] + [y];
        buffy := buffy[..i] + buffy[i + 1..];
      }
      p := IndexOf(buffy, '%', i);
    }
    DecodeDone(buffy, i);
    r := Some(buffy);
  }
}
