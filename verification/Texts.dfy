/** String operations of the Rust standard library that the markers and the diff reader use.
    A Rust string is a sequence of Unicode scalar values, as a Dafny string is. */
module Texts {
  import opened Wrappers

  function StripPrefix(s: string, prefix: string): (r: Option<string>)
    ensures r.Some? ==> s == prefix + r.value
  {
    if prefix <= s then Some(s[|prefix|..]) else None
  }

  function StripSuffix(s: string, suffix: string): (r: Option<string>)
    ensures r.Some? ==> s == r.value + suffix
  {
    if |suffix| <= |s| && s[|s| - |suffix|..] == suffix then Some(s[..|s| - |suffix|]) else None
  }

  lemma StripPrefixOf(prefix: string, rest: string)
    ensures StripPrefix(prefix + rest, prefix) == Some(rest)
  {
    assert (prefix + rest)[|prefix|..] == rest;
  }

  lemma StripSuffixOf(rest: string, suffix: string)
    ensures StripSuffix(rest + suffix, suffix) == Some(rest)
  {
    assert (rest + suffix)[|rest|..] == suffix;
    assert (rest + suffix)[..|rest|] == rest;
  }

  /** `starts_with`. */
  predicate StartsWith(s: string, prefix: string)
    decreases |s|
  {
    prefix == "" || (s != "" && s[0] == prefix[0] && StartsWith(s[1..], prefix[1..]))
  }

  lemma {:induction false} StartsWithIsPrefix(s: string, prefix: string)
    ensures StartsWith(s, prefix) <==> prefix <= s
    decreases |s|
  {
    if prefix != "" && s != "" && s[0] == prefix[0] {
      StartsWithIsPrefix(s[1..], prefix[1..]);
      assert prefix == [prefix[0]] + prefix[1..] && s == [s[0]] + s[1..];
    }
  }

  /** `split(c)`: one more piece than separators. */
  function Split(s: string, c: char): (pieces: seq<string>)
    ensures pieces != []
  {
    if s == "" then [""]
    else
      var rest := Split(s[1..], c);
      if s[0] == c then [""] + rest else [[s[0]] + rest[0]] + rest[1..]
  }

  function Join(pieces: seq<string>, c: char): string
    requires pieces != []
  {
    if |pieces| == 1 then pieces[0] else pieces[0] + [c] + Join(pieces[1..], c)
  }

  /** Joining the pieces of a split gives the text back. */
  lemma {:induction false} JoinSplit(s: string, c: char)
    ensures Join(Split(s, c), c) == s
  {
    if s != "" {
      JoinSplit(s[1..], c);
      var rest := Split(s[1..], c);
      assert s == [s[0]] + s[1..];
      if s[0] == c {
        assert Split(s, c)[1..] == rest;
        assert "" + [c] + Join(rest, c) == s;
      } else {
        assert Split(s, c)[1..] == rest[1..];
        if |rest| > 1 {
          assert [s[0]] + rest[0] + [c] + Join(rest[1..], c) == [s[0]] + (rest[0] + [c] + Join(rest[1..], c));
        }
      }
    }
  }

  lemma {:induction false} SplitWithout(s: string, c: char)
    requires c !in s
    ensures Split(s, c) == [s]
  {
    if s != "" {
      SplitWithout(s[1..], c);
      assert [s[0]] + s[1..] == s;
    }
  }

  lemma {:induction false} SplitAtFirst(a: string, c: char, b: string)
    requires c !in a
    ensures Split(a + [c] + b, c) == [a] + Split(b, c)
  {
    var s := a + [c] + b;
    if a == "" {
      assert s[1..] == b;
    } else {
      assert s[1..] == a[1..] + [c] + b;
      SplitAtFirst(a[1..], c, b);
      var rest := Split(s[1..], c);
      assert rest[1..] == Split(b, c);
      assert [a[0]] + a[1..] == a;
    }
  }

  /** The position of the first occurrence of a character. */
  function IndexOf(s: string, c: char): (i: nat)
    ensures i <= |s| && c !in s[..i]
    ensures i < |s| ==> s[i] == c
    ensures c in s ==> i < |s|
  {
    if s == "" then 0
    else if s[0] == c then 0
    else
      var i := IndexOf(s[1..], c);
      assert s[..i + 1] == [s[0]] + s[1..][..i];
      assert s == [s[0]] + s[1..];
      i + 1
  }

  function StripCarriageReturn(s: string): string {
    if s != "" && s[|s| - 1] == '\r' then s[..|s| - 1] else s
  }

  /** `lines()`: pieces ended by a line feed lose it and one carriage return before it; a final
      piece without a line feed is kept as it is, and an empty one is not a line. */
  function Lines(s: string): seq<string>
    decreases |s|
  {
    if s == "" then []
    else
      var i := IndexOf(s, '\n');
      if i == |s| then [s] else [StripCarriageReturn(s[..i])] + Lines(s[i + 1..])
  }

  lemma {:induction false} IndexOfFirst(a: string, c: char, b: string)
    requires c !in a
    ensures IndexOf(a + [c] + b, c) == |a|
  {
    if a != "" {
      assert (a + [c] + b)[1..] == a[1..] + [c] + b;
      IndexOfFirst(a[1..], c, b);
    }
  }

  /** The first line of a text that has a line feed, and the lines behind it. */
  lemma {:induction false} LinesFirst(head: string, tail: string)
    requires '\n' !in head
    ensures Lines(head + "\n" + tail) == [StripCarriageReturn(head)] + Lines(tail)
  {
    var s := head + "\n" + tail;
    assert "\n" == ['\n'];
    IndexOfFirst(head, '\n', tail);
    assert s[..|head|] == head && s[|head| + 1..] == tail;
  }

  lemma {:induction false} OneLine(last: string)
    requires '\n' !in last && last != ""
    ensures Lines(last) == [last]
  {
  }

  /** Appending a line to a terminated text appends a line. */
  lemma {:induction false} LinesAppend(a: string, last: string)
    requires '\n' !in last && last != ""
    ensures Lines(a + "\n" + last) == Lines(a + "\n") + [last]
    decreases |a|
  {
    if '\n' in a {
      var i := IndexOf(a, '\n');
      var head, tail := a[..i], a[i + 1..];
      assert a + "\n" + last == head + "\n" + (tail + "\n" + last);
      assert a + "\n" == head + "\n" + (tail + "\n");
      LinesFirst(head, tail + "\n" + last);
      LinesFirst(head, tail + "\n");
      LinesAppend(tail, last);
    } else {
      LinesFirst(a, last);
      LinesFirst(a, "");
      assert a + "\n" + "" == a + "\n";
      OneLine(last);
    }
  }

  /** The text behind the last occurrence of a character, or the whole text. */
  function AfterLast(s: string, c: char): string
    decreases |s|
  {
    if c in s then AfterLast(s[IndexOf(s, c) + 1..], c) else s
  }

  /** The tail of `rsplit_once('\n')`, or the whole text. */
  function LastLine(s: string): string {
    AfterLast(s, '\n')
  }

  lemma {:induction false} AfterLastAppend(a: string, c: char, last: string)
    requires c !in last
    ensures AfterLast(a + [c] + last, c) == last
    decreases |a|
  {
    var s := a + [c] + last;
    assert s[|a|] == c;
    if c in a {
      var i := IndexOf(a, c);
      var head, tail := a[..i], a[i + 1..];
      assert a == head + [c] + tail;
      assert s == head + [c] + (tail + [c] + last);
      IndexOfFirst(head, c, tail + [c] + last);
      assert s[i + 1..] == tail + [c] + last;
      AfterLastAppend(tail, c, last);
    } else {
      IndexOfFirst(a, c, last);
      assert s[|a| + 1..] == last;
    }
  }

  lemma LastLineAppend(a: string, last: string)
    requires '\n' !in last
    ensures LastLine(a + "\n" + last) == last
  {
    assert "\n" == ['\n'];
    AfterLastAppend(a, '\n', last);
  }

  /** `contains`. */
  predicate Contains(s: string, part: string) {
    part <= s || (s != "" && Contains(s[1..], part))
  }

  /** `split_once`: the text before and behind the first occurrence of a separator. */
  function SplitOnce(s: string, separator: string): (r: Option<(string, string)>)
    ensures r.Some? ==> s == r.value.0 + separator + r.value.1
    ensures r.Some? <==> Contains(s, separator)
  {
    if separator <= s then Some(("", s[|separator|..]))
    else if s == "" then None
    else
      var rest := SplitOnce(s[1..], separator);
      if rest.None? then None
      else
        assert s == [s[0]] + s[1..];
        Some(([s[0]] + rest.value.0, rest.value.1))
  }

  /** Nothing in `a` starts the separator. */
  lemma {:induction false} SplitOnceOf(a: string, separator: string, b: string)
    requires separator != "" && separator[0] !in a
    ensures SplitOnce(a + separator + b, separator) == Some((a, b))
  {
    var s := a + separator + b;
    if a == "" {
      assert s[|separator|..] == b && separator <= s;
    } else {
      assert s[0] == a[0] && a[0] in a;
      assert s[1..] == a[1..] + separator + b;
      SplitOnceOf(a[1..], separator, b);
      assert [a[0]] + a[1..] == a;
    }
  }

  lemma {:induction false} NotContained(s: string, separator: string)
    requires separator != "" && separator[0] !in s
    ensures !Contains(s, separator)
  {
    if s != "" {
      assert s[0] in s;
      NotContained(s[1..], separator);
    }
  }

  /** A separator whose first character occurs only at the start of a text, where it does not fit. */
  lemma {:induction false} NotContainedAtStart(s: string, separator: string)
    requires s != "" && separator != "" && separator[0] !in s[1..] && !(separator <= s)
    ensures !Contains(s, separator)
  {
    NotContained(s[1..], separator);
  }

  // ----- encoded length and character classes

  function Utf8Width(c: char): nat {
    var n := c as int;
    if n < 0x80 then 1 else if n < 0x800 then 2 else if n < 0x1_0000 then 3 else 4
  }

  /** `len()`: the number of bytes of the UTF-8 encoding. */
  function ByteLength(s: string): (n: nat)
    ensures n >= |s|
  {
    if s == "" then 0 else Utf8Width(s[0]) + ByteLength(s[1..])
  }

  lemma {:induction false} ByteLengthConcat(a: string, b: string)
    ensures ByteLength(a + b) == ByteLength(a) + ByteLength(b)
  {
    if a == "" {
      assert a + b == b;
    } else {
      assert (a + b)[1..] == a[1..] + b;
      ByteLengthConcat(a[1..], b);
    }
  }

  /** The Unicode general category Cc. */
  predicate IsControl(c: char) {
    c as int < 0x20 || 0x7F <= c as int < 0xA0
  }

  /** The Unicode property White_Space. */
  predicate IsWhitespace(c: char) {
    var n := c as int;
    0x09 <= n <= 0x0D || n == 0x20 || n == 0x85 || n == 0xA0 || n == 0x1680
    || 0x2000 <= n <= 0x200A || n == 0x2028 || n == 0x2029 || n == 0x202F || n == 0x205F || n == 0x3000
  }

  /** `trim().is_empty()`. */
  predicate IsBlank(s: string) {
    forall c :: c in s ==> IsWhitespace(c)
  }
}
