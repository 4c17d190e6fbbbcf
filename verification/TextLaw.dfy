/** What the string operations mean, told from the positions and the encoded bytes of a text. */
module TextLaws {
  import opened Texts

  // ----- occurrences

  ghost predicate OccursAt(s: string, part: string, i: nat) {
    i + |part| <= |s| && s[i..i + |part|] == part
  }

  /** A text contains a part exactly if the part stands somewhere in it. */
  lemma {:induction false} ContainsIsOccurrence(s: string, part: string)
    ensures Contains(s, part) <==> exists i: nat :: OccursAt(s, part, i)
  {
    if part <= s {
      assert OccursAt(s, part, 0);
    } else {
      if s != "" {
        ContainsIsOccurrence(s[1..], part);
        if Contains(s[1..], part) {
          var i: nat :| OccursAt(s[1..], part, i);
          assert s[1..][i..i + |part|] == s[i + 1..i + 1 + |part|];
          assert OccursAt(s, part, i + 1);
        }
      }
      forall i: nat | OccursAt(s, part, i) ensures Contains(s, part) {
        assert i > 0 && s[1..][i - 1..i - 1 + |part|] == s[i..i + |part|];
        assert OccursAt(s[1..], part, i - 1);
      }
    }
  }

  // ----- UTF-8

  /** The encoding of a code point, sections 3 and 4 of RFC 3629. */
  function Encoded(c: char): seq<nat> {
    var n := c as int;
    if n < 0x80 then [n]
    else if n < 0x800 then [0xC0 + n / 0x40, 0x80 + n % 0x40]
    else if n < 0x1_0000 then [0xE0 + n / 0x1000, 0x80 + n / 0x40 % 0x40, 0x80 + n % 0x40]
    else [0xF0 + n / 0x4_0000, 0x80 + n / 0x1000 % 0x40, 0x80 + n / 0x40 % 0x40, 0x80 + n % 0x40]
  }

  predicate Tail(b: nat) {
    0x80 <= b <= 0xBF
  }

  /** The well-formed sequences of bytes of section 4. */
  predicate WellFormed(b: seq<nat>) {
    match |b|
    case 1 => b[0] <= 0x7F
    case 2 => 0xC2 <= b[0] <= 0xDF && Tail(b[1])
    case 3 =>
      && 0xE0 <= b[0] <= 0xEF && Tail(b[1]) && Tail(b[2])
      && (b[0] == 0xE0 ==> 0xA0 <= b[1]) && (b[0] == 0xED ==> b[1] <= 0x9F)
    case 4 =>
      && 0xF0 <= b[0] <= 0xF4 && Tail(b[1]) && Tail(b[2]) && Tail(b[3])
      && (b[0] == 0xF0 ==> 0x90 <= b[1]) && (b[0] == 0xF4 ==> b[1] <= 0x8F)
    case _ => false
  }

  /** The code point of a well-formed sequence. */
  function Decoded(b: seq<nat>): int
    requires WellFormed(b)
  {
    match |b|
    case 1 => b[0]
    case 2 => (b[0] - 0xC0) * 0x40 + (b[1] - 0x80)
    case 3 => (b[0] - 0xE0) * 0x1000 + (b[1] - 0x80) * 0x40 + (b[2] - 0x80)
    case _ => (b[0] - 0xF0) * 0x4_0000 + (b[1] - 0x80) * 0x1000 + (b[2] - 0x80) * 0x40 + (b[3] - 0x80)
  }

  /** A well-formed sequence encodes the code point it decodes to, in as many bytes as it has. */
  lemma DecodedWidth(b: seq<nat>, c: char)
    requires WellFormed(b) && Decoded(b) == c as int
    ensures |b| == Utf8Width(c)
  {
  }

  lemma EncodedIsDecoded(c: char)
    ensures WellFormed(Encoded(c)) && Decoded(Encoded(c)) == c as int
  {
    var n := c as int;
    SixBits(n);
    if n < 0x800 {
    } else if n < 0x1_0000 {
    } else {
      SixBits(n / 0x1000);
    }
  }

  lemma SixBits(n: nat)
    ensures n == n / 0x1000 * 0x1000 + n / 0x40 % 0x40 * 0x40 + n % 0x40
    ensures n / 0x1000 == n / 0x4_0000 * 0x40 + n / 0x1000 % 0x40
  {
  }

  /** The encoding of a text. */
  function Utf8(s: string): seq<nat> {
    if s == "" then [] else Encoded(s[0]) + Utf8(s[1..])
  }

  lemma {:induction false} ByteLengthIsEncodedLength(s: string)
    ensures ByteLength(s) == |Utf8(s)|
  {
    if s != "" {
      ByteLengthIsEncodedLength(s[1..]);
      EncodedIsDecoded(s[0]);
      DecodedWidth(Encoded(s[0]), s[0]);
    }
  }

  // ----- character classes

  /** The code points of the property White_Space in the Unicode character database. */
  const WHITE_SPACE := {
    0x9, 0xA, 0xB, 0xC, 0xD, 0x20, 0x85, 0xA0, 0x1680,
    0x2000, 0x2001, 0x2002, 0x2003, 0x2004, 0x2005, 0x2006, 0x2007, 0x2008, 0x2009, 0x200A,
    0x2028, 0x2029, 0x202F, 0x205F, 0x3000}

  lemma WhiteSpaceIsListed(c: char)
    ensures IsWhitespace(c) <==> c as int in WHITE_SPACE
  {
  }

  // ----- lines

  /** A line ends at a line feed, and loses one carriage return before it. */
  lemma {:induction false} LinesAreTold(head: string, tail: string)
    requires '\n' !in head
    ensures Lines("") == []
    ensures head != "" ==> Lines(head) == [head]
    ensures head == "" || head[|head| - 1] != '\r' ==> Lines(head + "\n" + tail) == [head] + Lines(tail)
    ensures Lines(head + "\r\n" + tail) == [head] + Lines(tail)
  {
    if head != "" {
      OneLine(head);
    }
    LinesFirst(head, tail);
    LinesFirst(head + "\r", tail);
    assert head + "\r\n" + tail == head + "\r" + "\n" + tail;
    assert (head + "\r")[..|head|] == head;
  }

  /** The text behind the last `c`, or all of it. */
  ghost predicate EndsBehind(s: string, c: char, last: string) {
    c !in last && (s == last || exists head: string :: s == head + [c] + last)
  }

  /** The last piece of a text holds no separator and is all of the text or stands behind one. */
  lemma {:induction false} AfterLastIsTold(s: string, c: char, last: string)
    ensures AfterLast(s, c) == last <==> EndsBehind(s, c, last)
  {
    AfterLastEnds(s, c);
    if EndsBehind(s, c, last) && s != last {
      var head: string :| s == head + [c] + last;
      AfterLastAppend(head, c, last);
    }
  }

  lemma {:induction false} AfterLastEnds(s: string, c: char)
    ensures EndsBehind(s, c, AfterLast(s, c))
    decreases |s|
  {
    if c in s {
      var i := IndexOf(s, c);
      AfterLastEnds(s[i + 1..], c);
      assert s == s[..i] + [c] + s[i + 1..];
      BehindPiece(s[..i], c, s[i + 1..], AfterLast(s, c));
    }
  }

  lemma {:induction false} BehindPiece(head: string, c: char, rest: string, last: string)
    requires EndsBehind(rest, c, last)
    ensures EndsBehind(head + [c] + rest, c, last)
  {
    if rest != last {
      var inner: string :| rest == inner + [c] + last;
      assert head + [c] + rest == (head + [c] + inner) + [c] + last;
    }
  }
}
