/** The string operations both sides of the role claim rely on: the server's
    join of a role list into one claim value, the browser's `String.split`
    on one character, and the decimal rendering of a number in a template
    string. */
module Text {
  import opened Wrappers

  /** Number of occurrences of `c` in `s`. */
  function Count(s: string, c: char): nat
  {
    if s == [] then 0 else (if s[0] == c then 1 else 0) + Count(s[1..], c)
  }

  /** `items` written one after the other with `sep` between neighbours, as
      the server's `ExpandAndToString` renders a role list; the empty list
      gives the empty string. */
  function Join(items: seq<string>, sep: string): string
  {
    if |items| == 0 then ""
    else if |items| == 1 then items[0]
    else items[0] + sep + Join(items[1..], sep)
  }

  /** JavaScript's `s.split(c)` for a one-character separator: the pieces of
      `s` between occurrences of `c`, including empty pieces; the empty
      string gives one empty piece. */
  function Split(s: string, c: char): (parts: seq<string>)
    ensures |parts| == Count(s, c) + 1
    ensures forall i :: 0 <= i < |parts| ==> c !in parts[i]
  {
    if s == [] then [""]
    else
      var rest := Split(s[1..], c);
      if s[0] == c then [""] + rest
      else [[s[0]] + rest[0]] + rest[1..]
  }

  /** A prefix without the separator is glued onto the first piece. */
  lemma {:induction false} SplitPrefix(a: string, t: string, c: char)
    requires c !in a
    ensures Split(a + t, c) == [a + Split(t, c)[0]] + Split(t, c)[1..]
  {
    if a != [] {
      assert (a + t)[1..] == a[1..] + t;
      SplitPrefix(a[1..], t, c);
      assert [a[0]] + (a[1..] + Split(t, c)[0]) == a + Split(t, c)[0];
    } else {
      var parts := Split(t, c);
      assert a + t == t && a + parts[0] == parts[0];
      assert parts == [parts[0]] + parts[1..];
    }
  }

  /** Splitting a join undoes it when no item holds the separator and the
      list is not empty (the empty list joins to "", which splits to [""]). */
  lemma {:induction false} SplitJoin(items: seq<string>, c: char)
    requires |items| > 0
    requires forall i :: 0 <= i < |items| ==> c !in items[i]
    ensures Split(Join(items, [c]), c) == items
  {
    if |items| == 1 {
      SplitPrefix(items[0], "", c);
      assert items[0] + "" == items[0];
    } else {
      var tail := Join(items[1..], [c]);
      SplitJoin(items[1..], c);
      assert Join(items, [c]) == items[0] + ([c] + tail);
      SplitPrefix(items[0], [c] + tail, c);
      assert ([c] + tail)[1..] == tail;
      assert Split([c] + tail, c) == [""] + items[1..];
      assert items[0] + "" == items[0];
    }
  }

  /** Joining the pieces of a split with the same separator gives the
      string back, for every string. */
  lemma {:induction false} JoinSplit(s: string, c: char)
    ensures Join(Split(s, c), [c]) == s
  {
    if s != [] {
      var rest := Split(s[1..], c);
      JoinSplit(s[1..], c);
      if s[0] == c {
        assert Split(s, c)[1..] == rest;
        assert s == [c] + s[1..];
      } else if |rest| == 1 {
        assert s == [s[0]] + s[1..];
      } else {
        var parts := Split(s, c);
        assert parts[1..] == rest[1..];
        assert Join(rest, [c]) == rest[0] + [c] + Join(rest[1..], [c]);
        assert s == [s[0]] + s[1..];
      }
    }
  }

  /** Decimal digit character of `d`. */
  function DigitChar(d: nat): (ch: char)
    requires d < 10
    ensures '0' <= ch <= '9'
  {
    (48 + d) as char
  }

  predicate IsDigit(ch: char)
  {
    '0' <= ch <= '9'
  }

  predicate AllDigits(s: string)
  {
    forall i :: 0 <= i < |s| ==> IsDigit(s[i])
  }

  /** Decimal rendering of a natural number, most significant digit first,
      without leading zeros. */
  function NatToString(n: nat): (s: string)
    ensures |s| > 0 && AllDigits(s)
  {
    if n < 10 then [DigitChar(n)] else NatToString(n / 10) + [DigitChar(n % 10)]
  }

  /** The text a JavaScript template string gives an integer: its decimal
      digits, preceded by '-' when it is negative. */
  function IntToString(n: int): (s: string)
    ensures '.' !in s
    ensures |s| > 0 && (s[0] == '-' || IsDigit(s[0])) && IsDigit(s[|s| - 1])
  {
    if n < 0 then "-" + NatToString(-n) else NatToString(n)
  }

  /** Value of a string of decimal digits. */
  function ParseNat(s: string): nat
    requires AllDigits(s)
  {
    if s == [] then 0 else 10 * ParseNat(s[..|s| - 1]) + (s[|s| - 1] as int - 48)
  }

  /** Reads back what `IntToString` writes: an optional '-' and at least one
      digit; anything else has no value. */
  function ParseInt(s: string): Option<int>
  {
    if |s| > 1 && s[0] == '-' && AllDigits(s[1..]) then Some(0 - ParseNat(s[1..]))
    else if |s| > 0 && AllDigits(s) then Some(ParseNat(s))
    else None
  }

  lemma {:induction false} ParseNatToString(n: nat)
    ensures ParseNat(NatToString(n)) == n
  {
    if n >= 10 {
      var s := NatToString(n);
      ParseNatToString(n / 10);
      assert s[..|s| - 1] == NatToString(n / 10);
    }
  }

  /** The decimal rendering is read back exactly; in particular two
      different integers never render alike. */
  lemma ParseIntToString(n: int)
    ensures ParseInt(IntToString(n)) == Some(n)
  {
    if n < 0 {
      ParseNatToString(-n);
      assert IntToString(n)[1..] == NatToString(-n);
    } else {
      ParseNatToString(n);
    }
  }

  /** The whitespace `JSON.parse` skips around a value (section 2 of RFC
      8259): space, tab, line feed and carriage return. */
  predicate IsJsonSpace(ch: char)
  {
    ch == ' ' || ch == '\t' || ch == '\n' || ch == '\r'
  }

  predicate AllJsonSpace(s: string)
  {
    forall i :: 0 <= i < |s| ==> IsJsonSpace(s[i])
  }

  /** `s` without its leading whitespace: a suffix of `s`, all of whose
      dropped characters are whitespace, starting with a non-space. */
  function TrimStart(s: string): (t: string)
    ensures |t| <= |s| && t == s[|s| - |t|..] && AllJsonSpace(s[..|s| - |t|])
    ensures t == [] || !IsJsonSpace(t[0])
  {
    if s != [] && IsJsonSpace(s[0]) then TrimStart(s[1..]) else s
  }

  /** `s` without its trailing whitespace: a prefix of `s`, all of whose
      dropped characters are whitespace, ending with a non-space. */
  function TrimEnd(s: string): (t: string)
    ensures |t| <= |s| && t == s[..|t|] && AllJsonSpace(s[|t|..])
    ensures t == [] || !IsJsonSpace(t[|t| - 1])
  {
    if s != [] && IsJsonSpace(s[|s| - 1]) then TrimEnd(s[..|s| - 1]) else s
  }

  function Trim(s: string): string
  {
    TrimEnd(TrimStart(s))
  }

  lemma {:induction false} TrimStartPadding(w: string, s: string)
    requires AllJsonSpace(w)
    ensures TrimStart(w + s) == TrimStart(s)
  {
    if w == [] {
      assert w + s == s;
    } else {
      assert (w + s)[1..] == w[1..] + s;
      TrimStartPadding(w[1..], s);
    }
  }

  lemma {:induction false} TrimEndPadding(s: string, w: string)
    requires AllJsonSpace(w)
    ensures TrimEnd(s + w) == TrimEnd(s)
  {
    if w == [] {
      assert s + w == s;
    } else {
      assert (s + w)[..|s + w| - 1] == s + w[..|w| - 1];
      TrimEndPadding(s, w[..|w| - 1]);
    }
  }

  /** Whitespace around a text that neither starts nor ends with
      whitespace is exactly what trimming removes. */
  lemma TrimPadded(w1: string, s: string, w2: string)
    requires AllJsonSpace(w1) && AllJsonSpace(w2)
    requires s != [] && !IsJsonSpace(s[0]) && !IsJsonSpace(s[|s| - 1])
    ensures Trim(w1 + s + w2) == s
  {
    assert w1 + s + w2 == w1 + (s + w2);
    TrimStartPadding(w1, s + w2);
    assert TrimStart(s + w2) == s + w2;
    TrimEndPadding(s, w2);
  }
}
