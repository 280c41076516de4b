/** The pieces of Rust's standard library the core relies on, on `seq<char>`:
    `Iterator::map`, `[String]::join`, `str::replace`, `str::contains`, `str::trim`
    and `str::parse::<i32>`. `Split` (as `str::split` on one character) is not used
    by the core; the lemmas use it to read generated lines back into words. */
module Strings {
  import opened Wrappers

  /** `xs.iter().map(f).collect()`: one image per element, in order. */
  function Map<A, B>(f: A -> B, xs: seq<A>): (r: seq<B>)
    ensures |r| == |xs|
    ensures forall i :: 0 <= i < |xs| ==> r[i] == f(xs[i])
  {
    if xs == [] then [] else [f(xs[0])] + Map(f, xs[1..])
  }

  /** `parts.join(sep)`: the parts with `sep` between neighbours, "" for no parts. */
  function Join(parts: seq<string>, sep: string): string
  {
    if parts == [] then []
    else if |parts| == 1 then parts[0]
    else parts[0] + sep + Join(parts[1..], sep)
  }

  /** Appending a part to a non-empty join adds one separator and the part. */
  lemma {:induction false} JoinSnoc(parts: seq<string>, x: string, sep: string)
    requires parts != []
    ensures Join(parts + [x], sep) == Join(parts, sep) + sep + x
  {
    if |parts| > 1 {
      assert (parts + [x])[1..] == parts[1..] + [x];
      JoinSnoc(parts[1..], x, sep);
    }
  }

  /** `s.split(sep).collect()`: the maximal pieces between occurrences of `sep`,
      empty pieces included, so that "" splits into [""]. */
  function Split(s: string, sep: char): (r: seq<string>)
    ensures |r| >= 1
  {
    if s == [] then [[]]
    else
      var rest := Split(s[1..], sep);
      if s[0] == sep then [[]] + rest else [[s[0]] + rest[0]] + rest[1..]
  }

  lemma {:induction false} SplitWithoutSeparator(p: string, sep: char)
    requires sep !in p
    ensures Split(p, sep) == [p]
  {
    if p != [] {
      SplitWithoutSeparator(p[1..], sep);
      assert [p[0]] + p[1..] == p;
    }
  }

  lemma {:induction false} SplitAtSeparator(p: string, rest: string, sep: char)
    requires sep !in p
    ensures Split(p + [sep] + rest, sep) == [p] + Split(rest, sep)
  {
    var s := p + [sep] + rest;
    if p == [] {
      assert s[1..] == rest;
    } else {
      assert s[1..] == p[1..] + [sep] + rest;
      SplitAtSeparator(p[1..], rest, sep);
      assert [p[0]] + p[1..] == p;
    }
  }

  /** Splitting a join at a separator that no part contains gives the parts back. */
  lemma {:induction false} SplitJoin(parts: seq<string>, sep: char)
    requires parts != []
    requires forall i :: 0 <= i < |parts| ==> sep !in parts[i]
    ensures Split(Join(parts, [sep]), sep) == parts
  {
    if |parts| == 1 {
      SplitWithoutSeparator(parts[0], sep);
    } else {
      SplitAtSeparator(parts[0], Join(parts[1..], [sep]), sep);
      SplitJoin(parts[1..], sep);
    }
  }

  /** `s.replace(pat, by)`: every non-overlapping occurrence of `pat`, scanning left to
      right, replaced by `by`; an empty `pat` puts `by` around every character. */
  function Replace(s: string, pat: string, rep: string): string
    decreases |s|
  {
    if s == [] then (if pat == [] then rep else [])
    else if pat != [] && pat <= s then rep + Replace(s[|pat|..], pat, rep)
    else if pat == [] then rep + [s[0]] + Replace(s[1..], pat, rep)
    else [s[0]] + Replace(s[1..], pat, rep)
  }

  /** `s.contains(sub)`. */
  predicate Contains(s: string, sub: string)
    decreases |s|
  {
    sub <= s || (s != [] && Contains(s[1..], sub))
  }

  /** A text containing `a + b` contains `a`. */
  lemma {:induction false} ContainsPrefix(s: string, a: string, b: string)
    requires Contains(s, a + b)
    ensures Contains(s, a)
  {
    if a + b <= s {
      assert a <= s by {
        forall i | 0 <= i < |a| ensures a[i] == s[i] {
          assert (a + b)[i] == a[i];
        }
      }
    } else {
      ContainsPrefix(s[1..], a, b);
    }
  }

  /** Replacing a pattern that does not occur leaves the string unchanged. */
  lemma {:induction false} ReplaceAbsent(s: string, pat: string, rep: string)
    requires pat != [] && !Contains(s, pat)
    ensures Replace(s, pat, rep) == s
  {
    if s != [] {
      ReplaceAbsent(s[1..], pat, rep);
      assert [s[0]] + s[1..] == s;
    }
  }

  /** Replacing a character by a text free of it removes every occurrence. */
  lemma {:induction false} ReplaceRemovesChar(s: string, c: char, rep: string)
    requires c !in rep
    ensures c !in Replace(s, [c], rep)
  {
    if s != [] {
      ReplaceRemovesChar(s[1..], c, rep);
    }
  }

  /** A one-character pattern absent from the text leaves it unchanged. */
  lemma {:induction false} ReplaceMissingChar(s: string, c: char, rep: string)
    requires c !in s
    ensures Replace(s, [c], rep) == s
  {
    if s != [] {
      ReplaceMissingChar(s[1..], c, rep);
      assert [s[0]] + s[1..] == s;
    }
  }

  /** Replacing a one-character pattern distributes over concatenation. */
  lemma {:induction false} ReplaceCharConcat(a: string, b: string, c: char, rep: string)
    ensures Replace(a + b, [c], rep) == Replace(a, [c], rep) + Replace(b, [c], rep)
  {
    if a != [] {
      ReplaceCharConcat(a[1..], b, c, rep);
      assert (a + b)[1..] == a[1..] + b;
      assert ([c] <= a + b) == ([c] <= a);
    } else {
      assert a + b == b;
    }
  }

  /** Replacing a character by a text that starts with a character the original lacks
      can be undone by replacing that text back. */
  lemma {:induction false} ReplaceCharRoundTrip(s: string, c: char, rep: string)
    requires rep != [] && rep[0] !in s
    ensures Replace(Replace(s, [c], rep), rep, [c]) == s
  {
    if s != [] {
      ReplaceCharRoundTrip(s[1..], c, rep);
      var rest := Replace(s[1..], [c], rep);
      if s[0] == c {
        assert Replace(s, [c], rep) == rep + rest;
        assert (rep + rest)[|rep|..] == rest;
      } else {
        assert Replace(s, [c], rep) == [s[0]] + rest;
        assert ([s[0]] + rest)[1..] == rest;
      }
      assert [s[0]] + s[1..] == s;
    }
  }

  /** A text lacking one of the pattern's characters does not contain the pattern. */
  lemma {:induction false} MissingCharNotContained(s: string, sub: string, x: char)
    requires x in sub && x !in s
    ensures !Contains(s, sub)
  {
    var k :| 0 <= k < |sub| && sub[k] == x;
    if k < |s| {
      assert s[k] in s;
    }
    if s != [] {
      MissingCharNotContained(s[1..], sub, x);
    }
  }

  /** `char::is_whitespace`: the Unicode White_Space property. */
  predicate IsWhitespace(c: char)
  {
    var n := c as int;
    (0x09 <= n <= 0x0D) || n == 0x20 || n == 0x85 || n == 0xA0 || n == 0x1680
    || (0x2000 <= n <= 0x200A) || n == 0x2028 || n == 0x2029 || n == 0x202F
    || n == 0x205F || n == 0x3000
  }

  function TrimStart(s: string): (r: string)
    ensures r == [] || !IsWhitespace(r[0])
    ensures |r| <= |s| && r == s[|s| - |r|..]
    decreases |s|
  {
    if s != [] && IsWhitespace(s[0]) then TrimStart(s[1..]) else s
  }

  function TrimEnd(s: string): (r: string)
    ensures r == [] || !IsWhitespace(r[|r| - 1])
    ensures r <= s
    decreases |s|
  {
    if s != [] && IsWhitespace(s[|s| - 1]) then TrimEnd(s[..|s| - 1]) else s
  }

  /** `s.trim()`: `s` without leading and trailing whitespace. */
  function Trim(s: string): string
  {
    TrimEnd(TrimStart(s))
  }

  /** A string with no whitespace at either end is its own trim. */
  lemma TrimUntrimmed(s: string)
    requires s == [] || (!IsWhitespace(s[0]) && !IsWhitespace(s[|s| - 1]))
    ensures Trim(s) == s
  {
  }

  /** Trimming has no outer whitespace left to remove, so it is idempotent. */
  lemma TrimIdempotent(s: string)
    ensures Trim(s) == [] || (!IsWhitespace(Trim(s)[0]) && !IsWhitespace(Trim(s)[|Trim(s)| - 1]))
    ensures Trim(Trim(s)) == Trim(s)
  {
    var t := TrimStart(s);
    var r := TrimEnd(t);
    if r != [] {
      assert r[0] == t[0];
    }
    TrimUntrimmed(r);
  }

  lemma {:induction false} TrimStartPadded(pad: string, t: string)
    requires forall i :: 0 <= i < |pad| ==> IsWhitespace(pad[i])
    requires t != [] && !IsWhitespace(t[0])
    ensures TrimStart(pad + t) == t
  {
    if pad == [] {
      assert pad + t == t;
    } else {
      assert (pad + t)[1..] == pad[1..] + t;
      TrimStartPadded(pad[1..], t);
    }
  }

  lemma {:induction false} TrimEndPadded(t: string, pad: string)
    requires forall i :: 0 <= i < |pad| ==> IsWhitespace(pad[i])
    requires t != [] && !IsWhitespace(t[|t| - 1])
    ensures TrimEnd(t + pad) == t
  {
    if pad == [] {
      assert t + pad == t;
    } else {
      assert (t + pad)[..|t + pad| - 1] == t + pad[..|pad| - 1];
      TrimEndPadded(t, pad[..|pad| - 1]);
    }
  }

  /** Whitespace around a text without outer whitespace is exactly what trimming removes. */
  lemma TrimPadded(pad1: string, core: string, pad2: string)
    requires forall i :: 0 <= i < |pad1| ==> IsWhitespace(pad1[i])
    requires forall i :: 0 <= i < |pad2| ==> IsWhitespace(pad2[i])
    requires core != [] && !IsWhitespace(core[0]) && !IsWhitespace(core[|core| - 1])
    ensures Trim(pad1 + core + pad2) == core
  {
    assert pad1 + core + pad2 == pad1 + (core + pad2);
    TrimStartPadded(pad1, core + pad2);
    TrimEndPadded(core, pad2);
  }

  predicate IsAsciiDigit(c: char)
  {
    '0' <= c <= '9'
  }

  predicate AllAsciiDigits(s: string)
  {
    forall i :: 0 <= i < |s| ==> IsAsciiDigit(s[i])
  }

  /** The decimal value of a string of ASCII digits, most significant first. */
  function DigitsValue(s: string): nat
    requires AllAsciiDigits(s)
  {
    if s == [] then 0 else DigitsValue(s[..|s| - 1]) * 10 + (s[|s| - 1] as int - '0' as int)
  }

  /** The shortest decimal spelling of `n`. */
  function ToDecimal(n: nat): string
  {
    if n < 10 then [('0' as int + n) as char] else ToDecimal(n / 10) + [('0' as int + n % 10) as char]
  }

  const I32Min: int := -0x8000_0000
  const I32Max: int := 0x7FFF_FFFF

  /** `s.parse::<i32>().ok()`: an optional `+` or `-`, then at least one ASCII digit,
      and a value that fits in 32 bits. */
  function ParseI32(s: string): (r: Option<int>)
    ensures r.Some? ==> I32Min <= r.value <= I32Max
  {
    if s == [] then None
    else if s[0] == '+' || s[0] == '-' then
      if |s| == 1 || !AllAsciiDigits(s[1..]) then None
      else
        var v: int := if s[0] == '-' then 0 - DigitsValue(s[1..]) as int else DigitsValue(s[1..]);
        if I32Min <= v <= I32Max then Some(v) else None
    else if !AllAsciiDigits(s) then None
    else if DigitsValue(s) <= I32Max then Some(DigitsValue(s))
    else None
  }

  /** The decimal spelling consists of digits whose value is the number. */
  lemma {:induction false} ToDecimalValue(n: nat)
    ensures |ToDecimal(n)| >= 1 && AllAsciiDigits(ToDecimal(n))
    ensures DigitsValue(ToDecimal(n)) == n
  {
    if n >= 10 {
      ToDecimalValue(n / 10);
      var s := ToDecimal(n);
      assert s[..|s| - 1] == ToDecimal(n / 10);
    }
  }

  /** Parsing the decimal spelling of a number gives the number back exactly when it
      fits in an i32; a longer digit string is a parse failure. */
  lemma ParseI32ToDecimal(n: nat)
    ensures n <= I32Max ==> ParseI32(ToDecimal(n)) == Some(n)
    ensures n > I32Max ==> ParseI32(ToDecimal(n)) == None
  {
    ToDecimalValue(n);
    var s := ToDecimal(n);
    assert IsAsciiDigit(s[0]);
  }
}
