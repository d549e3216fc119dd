/** The string operations of JavaScript's String.prototype that the app uses
    (toLowerCase, includes, split, join, trim, number-to-text), restricted to
    ASCII letter case and ASCII whitespace. */
module JsString {

  /** ASCII letter lowering: 'A'..'Z' become 'a'..'z', every other character is kept. */
  function LowerChar(c: char): char {
    if 'A' <= c <= 'Z' then (c as int + 32) as char else c
  }

  /** String.prototype.toLowerCase, on ASCII letters. */
  function Lower(s: string): (r: string)
    ensures |r| == |s|
    ensures forall i :: 0 <= i < |s| ==> r[i] == LowerChar(s[i])
  {
    seq(|s|, i requires 0 <= i < |s| => LowerChar(s[i]))
  }

  /** Lowering is idempotent: a lowered string has no upper-case ASCII letter left. */
  lemma LowerIdempotent(s: string)
    ensures Lower(Lower(s)) == Lower(s)
    ensures forall i :: 0 <= i < |s| ==> !('A' <= Lower(s)[i] <= 'Z')
  {
  }

  /** `p` is a prefix of `s`. */
  predicate StartsWith(s: string, p: string) {
    |p| <= |s| && s[..|p|] == p
  }

  /** String.prototype.includes: `needle` occurs somewhere in `hay`. */
  function Includes(hay: string, needle: string): (b: bool)
    decreases |hay|
  {
    StartsWith(hay, needle) || (|hay| > 0 && Includes(hay[1..], needle))
  }

  /** Every string includes the empty string. */
  lemma IncludesEmpty(hay: string)
    ensures Includes(hay, "")
  {
    assert StartsWith(hay, "");
  }

  /** String.prototype.split with a one-character separator: the maximal separator-free
      pieces, in order; there is always at least one piece ("" splits into [""]). */
  function Split(s: string, sep: char): (parts: seq<string>)
    ensures |parts| >= 1
    ensures forall i :: 0 <= i < |parts| ==> sep !in parts[i]
  {
    if |s| == 0 then [""]
    else if s[0] == sep then [""] + Split(s[1..], sep)
    else
      var rest := Split(s[1..], sep);
      [[s[0]] + rest[0]] + rest[1..]
  }

  /** Array.prototype.join: the parts with `sep` between neighbours. */
  function Join(parts: seq<string>, sep: string): (s: string)
  {
    if |parts| == 0 then ""
    else if |parts| == 1 then parts[0]
    else parts[0] + sep + Join(parts[1..], sep)
  }

  /** Prefixes every part with `pad`. */
  function PadAll(pad: string, parts: seq<string>): (r: seq<string>)
    ensures |r| == |parts|
    ensures forall i :: 0 <= i < |parts| ==> r[i] == pad + parts[i]
  {
    if |parts| == 0 then [] else [pad + parts[0]] + PadAll(pad, parts[1..])
  }

  /** A separator-free string splits into itself alone. */
  lemma {:induction false} SplitNoSeparator(a: string, sep: char)
    requires sep !in a
    ensures Split(a, sep) == [a]
  {
    if |a| > 0 {
      SplitNoSeparator(a[1..], sep);
      assert [a[0]] + a[1..] == a;
    }
  }

  /** Splitting at the first separator: the separator-free head becomes the first piece. */
  lemma {:induction false} SplitAtSeparator(a: string, sep: char, b: string)
    requires sep !in a
    ensures Split(a + [sep] + b, sep) == [a] + Split(b, sep)
  {
    if |a| == 0 {
      assert a + [sep] + b == [sep] + b;
      assert ([sep] + b)[1..] == b;
    } else {
      SplitAtSeparator(a[1..], sep, b);
      assert (a + [sep] + b)[1..] == a[1..] + [sep] + b;
      assert [a[0]] + a[1..] == a;
    }
  }

  /** Splitting, behind a separator-free `pre`, what `Join` produced with a separator that starts
      with `sep` and has no further `sep`: the first part comes back behind `pre`, every later one
      prefixed by the rest of the separator. */
  lemma {:induction false} SplitJoin(pre: string, parts: seq<string>, sep: char, pad: string)
    requires |parts| >= 1
    requires sep !in pre && sep !in pad
    requires forall i :: 0 <= i < |parts| ==> sep !in parts[i]
    ensures Split(pre + Join(parts, [sep] + pad), sep) == [pre + parts[0]] + PadAll(pad, parts[1..])
    decreases |parts|
  {
    assert sep !in pre + parts[0];
    if |parts| == 1 {
      SplitNoSeparator(pre + parts[0], sep);
    } else {
      var tail := Join(parts[1..], [sep] + pad);
      assert Join(parts, [sep] + pad) == parts[0] + ([sep] + pad) + tail;
      assert pre + Join(parts, [sep] + pad) == (pre + parts[0]) + [sep] + (pad + tail);
      SplitAtSeparator(pre + parts[0], sep, pad + tail);
      SplitJoin(pad, parts[1..], sep, pad);
    }
  }

  /** `Split` undoes `Join` with a separator made of `sep` and a `sep`-free padding: the first
      part comes back as it was, every later one behind the padding. */
  lemma SplitJoinPadded(parts: seq<string>, sep: char, pad: string)
    requires |parts| >= 1 && sep !in pad
    requires forall i :: 0 <= i < |parts| ==> sep !in parts[i]
    ensures Split(Join(parts, [sep] + pad), sep) == [parts[0]] + PadAll(pad, parts[1..])
  {
    var j := Join(parts, [sep] + pad);
    assert "" + j == j && "" + parts[0] == parts[0];
    SplitJoin("", parts, sep, pad);
  }

  /** The round trip of `Join` and `Split` over a one-character separator. */
  lemma SplitJoinRoundTrip(parts: seq<string>, sep: char)
    requires |parts| >= 1
    requires forall i :: 0 <= i < |parts| ==> sep !in parts[i]
    ensures Split(Join(parts, [sep]), sep) == parts
  {
    assert [sep] + "" == [sep];
    SplitJoinPadded(parts, sep, "");
    PadNothing(parts[1..]);
    assert [parts[0]] + parts[1..] == parts;
  }

  /** Padding with nothing changes nothing. */
  lemma {:induction false} PadNothing(parts: seq<string>)
    ensures PadAll("", parts) == parts
  {
    if |parts| > 0 {
      PadNothing(parts[1..]);
      assert "" + parts[0] == parts[0];
      assert [parts[0]] + parts[1..] == parts;
    }
  }

  /** The first piece of a split is the text before the first separator (all of it when there is none). */
  lemma {:induction false} SplitHead(s: string, sep: char)
    ensures StartsWith(s, Split(s, sep)[0])
    ensures |Split(s, sep)[0]| == |s| || s[|Split(s, sep)[0]|] == sep
  {
    if |s| > 0 && s[0] != sep {
      SplitHead(s[1..], sep);
    }
  }

  /** ECMAScript white space, restricted to ASCII: space, tab, line feed, vertical tab, form feed, carriage return. */
  predicate IsSpace(c: char) {
    c == ' ' || '\t' <= c <= '\r'
  }

  /** No white space at either end. */
  predicate IsTrimmed(s: string) {
    |s| == 0 || (!IsSpace(s[0]) && !IsSpace(s[|s| - 1]))
  }

  /** Drops leading white space: the result is the suffix of `s` starting at its first non-space character. */
  function TrimStart(s: string): (r: string)
    ensures |r| <= |s| && r == s[|s| - |r|..]
    ensures |r| == 0 || !IsSpace(r[0])
    ensures forall i :: 0 <= i < |s| - |r| ==> IsSpace(s[i])
  {
    if |s| > 0 && IsSpace(s[0]) then TrimStart(s[1..]) else s
  }

  /** Drops trailing white space: the result is the prefix of `s` ending at its last non-space character. */
  function TrimEnd(s: string): (r: string)
    ensures |r| <= |s| && r == s[..|r|]
    ensures |r| == 0 || !IsSpace(r[|r| - 1])
    ensures forall i :: |r| <= i < |s| ==> IsSpace(s[i])
  {
    if |s| > 0 && IsSpace(s[|s| - 1]) then TrimEnd(s[..|s| - 1]) else s
  }

  /** String.prototype.trim: what remains after dropping the white space at both ends. */
  function Trim(s: string): (r: string)
    ensures IsTrimmed(r)
  {
    TrimEnd(TrimStart(s))
  }

  /** Trimming leaves a trimmed string as it is, and only a trimmed one. */
  lemma TrimFixesTrimmed(s: string)
    ensures Trim(s) == s <==> IsTrimmed(s)
  {
  }

  /** Leading white space does not survive trimming. */
  lemma TrimLeadingSpace(pad: string, s: string)
    requires forall i :: 0 <= i < |pad| ==> IsSpace(pad[i])
    ensures Trim(pad + s) == Trim(s)
  {
    TrimStartSkipsSpace(pad, s);
  }

  lemma {:induction false} TrimStartSkipsSpace(pad: string, s: string)
    requires forall i :: 0 <= i < |pad| ==> IsSpace(pad[i])
    ensures TrimStart(pad + s) == TrimStart(s)
  {
    if |pad| > 0 {
      assert (pad + s)[1..] == pad[1..] + s;
      TrimStartSkipsSpace(pad[1..], s);
    } else {
      assert pad + s == s;
    }
  }

  /** A trimmed piece has no character its source did not have. */
  lemma TrimKeepsOut(s: string, c: char)
    requires c !in s
    ensures c !in Trim(s)
  {
    var t := TrimStart(s);
    DropKeepsOut(s, |s| - |t|, c);
    var r := TrimEnd(t);
    TakeKeepsOut(t, |r|, c);
  }

  /** A suffix has no character the whole string lacks. */
  lemma DropKeepsOut(s: string, k: nat, c: char)
    requires k <= |s| && c !in s
    ensures c !in s[k..]
  {
  }

  /** A prefix has no character the whole string lacks. */
  lemma TakeKeepsOut(s: string, k: nat, c: char)
    requires k <= |s| && c !in s
    ensures c !in s[..k]
  {
  }

  /** The decimal digit of `d`. */
  function DigitChar(d: nat): (c: char)
    requires d < 10
    ensures '0' <= c <= '9'
  {
    ('0' as int + d) as char
  }

  /** Number-to-string conversion of a natural number, in decimal without leading zeros. */
  function NatToText(n: nat): (s: string)
    ensures |s| >= 1
    ensures forall i :: 0 <= i < |s| ==> '0' <= s[i] <= '9'
    ensures |s| > 1 ==> s[0] != '0'
  {
    if n < 10 then [DigitChar(n)] else NatToText(n / 10) + [DigitChar(n % 10)]
  }

  /** Digits are read back as the number they were written from. */
  function TextToNat(s: string): nat
    requires forall i :: 0 <= i < |s| ==> '0' <= s[i] <= '9'
  {
    if |s| == 0 then 0 else 10 * TextToNat(s[..|s| - 1]) + (s[|s| - 1] as int - '0' as int)
  }

  /** `NatToText` writes the number it is given. */
  lemma {:induction false} NatToTextRoundTrip(n: nat)
    ensures TextToNat(NatToText(n)) == n
  {
    if n >= 10 {
      NatToTextRoundTrip(n / 10);
      var s := NatToText(n);
      assert s[..|s| - 1] == NatToText(n / 10);
    }
  }
}
