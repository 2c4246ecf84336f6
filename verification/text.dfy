/** The Kotlin string functions the activity relies on: `trim()`,
    `padStart()`, and the split on a separator character that a reader of the
    exported text applies. Strings are sequences of Unicode scalar values. */
module Text {

  /** Kotlin's `Char.isWhitespace()` on the JVM: `Character.isWhitespace` or
      `Character.isSpaceChar`, i.e. the ASCII controls TAB..CR and FS..US plus
      every space, line and paragraph separator. */
  predicate IsWhitespace(c: char)
  {
    var n := c as int;
    || 0x09 <= n <= 0x0D
    || 0x1C <= n <= 0x20
    || n == 0xA0
    || n == 0x1680
    || 0x2000 <= n <= 0x200A
    || n == 0x2028 || n == 0x2029
    || n == 0x202F || n == 0x205F
    || n == 0x3000
  }

  predicate AllWhitespace(s: string)
  {
    forall k :: 0 <= k < |s| ==> IsWhitespace(s[k])
  }

  /** Neither end of `s` is whitespace: the shape of every trimmed string. */
  predicate Trimmed(s: string)
  {
    |s| > 0 ==> !IsWhitespace(s[0]) && !IsWhitespace(s[|s| - 1])
  }

  /** The first index at or after `i` that is not whitespace. */
  function SkipLeading(s: string, i: nat): (r: nat)
    requires i <= |s|
    ensures i <= r <= |s|
    ensures forall k :: i <= k < r ==> IsWhitespace(s[k])
    ensures r < |s| ==> !IsWhitespace(s[r])
    decreases |s| - i
  {
    if i < |s| && IsWhitespace(s[i]) then SkipLeading(s, i + 1) else i
  }

  /** The end of `s[lo..j]` once trailing whitespace is dropped. */
  function SkipTrailing(s: string, lo: nat, j: nat): (r: nat)
    requires lo <= j <= |s|
    ensures lo <= r <= j
    ensures forall k :: r <= k < j ==> IsWhitespace(s[k])
    ensures r > lo ==> !IsWhitespace(s[r - 1])
    decreases j
  {
    if j > lo && IsWhitespace(s[j - 1]) then SkipTrailing(s, lo, j - 1) else j
  }

  /** Kotlin `String.trim()`: drop leading and trailing whitespace. */
  function Trim(s: string): (r: string)
    ensures |r| <= |s|
    ensures Trimmed(r)
    ensures r == [] <==> AllWhitespace(s)
  {
    var i := SkipLeading(s, 0);
    var j := SkipTrailing(s, i, |s|);
    s[i..j]
  }

  /** Trimming is characterised by its result: whatever whitespace surrounds a
      trimmed core, `Trim` returns exactly that core. */
  lemma {:induction false} TrimOfPadded(a: string, t: string, c: string)
    requires AllWhitespace(a) && AllWhitespace(c) && Trimmed(t)
    ensures Trim(a + t + c) == t
  {
    var s := a + t + c;
    var i := SkipLeading(s, 0);
    var j := SkipTrailing(s, i, |s|);
    if |t| == 0 {
      assert AllWhitespace(s) by {
        forall k | 0 <= k < |s| ensures IsWhitespace(s[k]) {
          if k < |a| { assert s[k] == a[k]; } else { assert s[k] == c[k - |a|]; }
        }
      }
    } else {
      assert s[|a|] == t[0];
      assert s[|a| + |t| - 1] == t[|t| - 1];
      assert i == |a|;
      assert j == |a| + |t|;
      assert s[i..j] == t;
    }
  }

  /** `trim()` is idempotent. */
  lemma TrimIdempotent(s: string)
    ensures Trim(Trim(s)) == Trim(s)
  {
    var t := Trim(s);
    assert [] + t + [] == t;
    TrimOfPadded([], t, []);
  }

  /** Kotlin `padStart(n, c)`: `s` itself when it already has `n` characters,
      otherwise `s` behind enough copies of `c` to make `n`. */
  function PadStart(s: string, n: nat, c: char): (r: string)
    ensures |s| >= n ==> r == s
    ensures |s| < n ==> |r| == n
    ensures r[|r| - |s|..] == s
    ensures forall k :: 0 <= k < |r| - |s| ==> r[k] == c
    decreases n
  {
    if |s| >= n then s else [c] + PadStart(s, n - 1, c)
  }

  /** How many times `c` occurs in `s`. */
  function Count(s: string, c: char): nat
  {
    if |s| == 0 then 0 else (if s[0] == c then 1 else 0) + Count(s[1..], c)
  }

  lemma {:induction false} CountConcat(a: string, b: string, c: char)
    ensures Count(a + b, c) == Count(a, c) + Count(b, c)
  {
    if |a| == 0 {
      assert a + b == b;
    } else {
      assert (a + b)[1..] == a[1..] + b;
      CountConcat(a[1..], b, c);
    }
  }

  lemma {:induction false} CountAbsent(s: string, c: char)
    requires c !in s
    ensures Count(s, c) == 0
  {
    if |s| > 0 {
      assert s[0] in s;
      CountAbsent(s[1..], c);
    }
  }

  lemma {:induction false} CountPresent(s: string, c: char)
    requires c in s
    ensures Count(s, c) >= 1
  {
    if s[0] != c {
      assert c in s[1..];
      CountPresent(s[1..], c);
    }
  }

  /** The first position of `c` in `s`. */
  function IndexOf(s: string, c: char): (i: nat)
    requires c in s
    ensures i < |s| && s[i] == c
    ensures c !in s[..i]
  {
    if s[0] == c then 0
    else
      var j := IndexOf(s[1..], c);
      assert s[..j + 1] == [s[0]] + s[1..][..j];
      j + 1
  }

  /** The pieces of `s` between occurrences of `sep`, as Kotlin's
      `split(sep)` returns them: one more piece than there are separators, an
      empty piece after a trailing separator. */
  function Split(s: string, sep: char): (parts: seq<string>)
    ensures |parts| == Count(s, sep) + 1
    ensures forall k :: 0 <= k < |parts| ==> sep !in parts[k]
    decreases |s|
  {
    if sep !in s then
      CountAbsent(s, sep);
      [s]
    else
      var i := IndexOf(s, sep);
      var rest := Split(s[i + 1..], sep);
      assert s == s[..i] + [sep] + s[i + 1..];
      CountConcat(s[..i] + [sep], s[i + 1..], sep);
      CountConcat(s[..i], [sep], sep);
      CountAbsent(s[..i], sep);
      [s[..i]] + rest
  }

  /** Splitting at a first separator peels off the text before it. */
  lemma SplitConcat(a: string, sep: char, b: string)
    requires sep !in a
    ensures Split(a + [sep] + b, sep) == [a] + Split(b, sep)
  {
    var s := a + [sep] + b;
    assert s[|a|] == sep;
    var i := IndexOf(s, sep);
    assert i == |a|;
    assert s[..i] == a;
    assert s[i + 1..] == b;
  }

  /** Splitting `a sep b sep c` gives back its three separator-free parts. */
  lemma SplitThree(a: string, b: string, c: string, sep: char)
    requires sep !in a && sep !in b && sep !in c
    ensures Split(a + [sep] + (b + [sep] + c), sep) == [a, b, c]
  {
    var bc := b + [sep] + c;
    SplitConcat(b, sep, c);
    assert Split(bc, sep) == [b, c];
    SplitConcat(a, sep, bc);
  }

  /** The lines glued together, each followed by a line break, as a
      `StringBuilder` receives them one `append` at a time. */
  function TerminatedLines(lines: seq<string>): string
  {
    if |lines| == 0 then "" else lines[0] + "\n" + TerminatedLines(lines[1..])
  }

  /** Appending one more line extends the text at its end only. */
  lemma {:induction false} TerminatedLinesAppend(lines: seq<string>, line: string)
    ensures TerminatedLines(lines + [line]) == TerminatedLines(lines) + (line + "\n")
  {
    if |lines| == 0 {
      assert lines + [line] == [line];
    } else {
      var head := lines[0] + "\n";
      assert (lines + [line])[0] == lines[0];
      assert (lines + [line])[1..] == lines[1..] + [line];
      calc {
        TerminatedLines(lines + [line]);
        head + TerminatedLines(lines[1..] + [line]);
        { TerminatedLinesAppend(lines[1..], line); }
        head + (TerminatedLines(lines[1..]) + (line + "\n"));
        (head + TerminatedLines(lines[1..])) + (line + "\n");
      }
    }
  }

  /** At least one line means the text ends in a line break. */
  lemma {:induction false} TerminatedLinesEnd(lines: seq<string>)
    requires |lines| > 0
    ensures var t := TerminatedLines(lines); |t| > 0 && t[|t| - 1] == '\n'
  {
    if |lines| > 1 {
      TerminatedLinesEnd(lines[1..]);
    }
  }

  /** Splitting newline-terminated lines at the line breaks gives the lines
      back, followed by the empty piece after the last break. */
  lemma {:induction false} SplitTerminatedLines(lines: seq<string>)
    requires forall k :: 0 <= k < |lines| ==> '\n' !in lines[k]
    ensures Split(TerminatedLines(lines), '\n') == lines + [""]
  {
    if |lines| == 0 {
      assert Split("", '\n') == [""];
    } else {
      SplitTerminatedLines(lines[1..]);
      SplitConcat(lines[0], '\n', TerminatedLines(lines[1..]));
      assert [lines[0]] + (lines[1..] + [""]) == lines + [""];
    }
  }
}
