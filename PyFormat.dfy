/** The pieces of Python's string handling that the banner formatter relies on:
    the padding rule of a format spec `{s:{fill}{align}{width}}` applied to a
    string, and `sep.join(lines)` together with its inverse `s.split(sep)`. */
module PyFormat {

  /** Python's `None`-or-value. */
  datatype Option<T> = None | Some(value: T)

  /** The three alignment tokens a string format spec accepts:
      `'<'` (left), `'^'` (centre) and `'>'` (right). */
  datatype Align = Left | Center | Right

  function Max(a: nat, b: nat): nat
  {
    if a < b then b else a
  }

  /** `c * n` in Python: `n` copies of the character `c`. */
  function Repeat(c: char, n: nat): (r: string)
    ensures |r| == n
    ensures forall i :: 0 <= i < n ==> r[i] == c
  {
    seq(n, _ => c)
  }

  /** How many fill characters a field of `width` adds to content of length
      `len`: none when the content is at least as wide as the field. */
  function PadCount(len: nat, width: nat): nat
  {
    if width > len then width - len else 0
  }

  /** How many of `pad` fill characters go before the content. Centring puts
      the smaller half on the left, so an odd fill character goes right. */
  function LeftCount(a: Align, pad: nat): (n: nat)
    ensures n <= pad
  {
    match a
    case Left => 0
    case Center => pad / 2
    case Right => pad
  }

  /** The padded field `format(s, f"{fill}{align}{width}")`: as wide as the
      field, or as the content when that is wider (no truncation), with the
      content after `LeftCount` fill characters. */
  function Pad(s: string, width: nat, a: Align, fill: char): (r: string)
    ensures |r| == Max(width, |s|)
    ensures width <= |s| ==> r == s
    ensures var left := LeftCount(a, |r| - |s|);
            left + |s| <= |r| && r[left..left + |s|] == s
  {
    var pad := PadCount(|s|, width);
    var left := LeftCount(a, pad);
    var r := Repeat(fill, left) + s + Repeat(fill, pad - left);
    assert r[left..left + |s|] == s;
    r
  }

  /** Every character of a padded field outside the content is `fill`. */
  lemma PadFill(s: string, width: nat, a: Align, fill: char)
    ensures var r := Pad(s, width, a, fill);
            var left := LeftCount(a, |r| - |s|);
            && (forall i :: 0 <= i < left ==> r[i] == fill)
            && (forall i :: left + |s| <= i < |r| ==> r[i] == fill)
  {
    var pad := PadCount(|s|, width);
    var left := LeftCount(a, pad);
    var r := Pad(s, width, a, fill);
    assert r == Repeat(fill, left) + s + Repeat(fill, pad - left);
  }

  /** The `j`-th character of the content sits `LeftCount` places further
      on in the padded field. */
  lemma PadContent(s: string, width: nat, a: Align, fill: char, j: nat)
    requires j < |s|
    ensures var left := LeftCount(a, PadCount(|s|, width));
            left + j < |Pad(s, width, a, fill)| && Pad(s, width, a, fill)[left + j] == s[j]
  {
    var left := LeftCount(a, PadCount(|s|, width));
    var r := Pad(s, width, a, fill);
    assert r[left..left + |s|][j] == s[j];
  }

  /** Where each alignment puts the content: `'<'` starts the field with it,
      `'>'` ends the field with it, and `'^'` puts `pad / 2` fill characters
      before it and `pad - pad / 2` after it, so the odd one goes right. */
  lemma PadAlign(s: string, width: nat, a: Align, fill: char)
    ensures var r := Pad(s, width, a, fill);
            a == Left ==> r[..|s|] == s
    ensures var r := Pad(s, width, a, fill);
            a == Right ==> r[|r| - |s|..] == s
    ensures var r := Pad(s, width, a, fill);
            var pad := PadCount(|s|, width);
            a == Center ==> && r[..pad / 2] == Repeat(fill, pad / 2)
                            && r[pad / 2..pad / 2 + |s|] == s
                            && r[pad / 2 + |s|..] == Repeat(fill, pad - pad / 2)
  {
    var pad := PadCount(|s|, width);
    var left := LeftCount(a, pad);
    var r := Pad(s, width, a, fill);
    assert r == Repeat(fill, left) + s + Repeat(fill, pad - left);
    assert r[..left] == Repeat(fill, left);
    assert r[left + |s|..] == Repeat(fill, pad - left);
  }

  /** An independent reading of the padding rule: the field grows one fill
      character at a time until it is `pad` characters wider. Left alignment
      always grows on the right, right alignment always on the left, and
      centring alternates, the odd (first, third, ...) characters going right. */
  function Grow(s: string, a: Align, fill: char, pad: nat): string
  {
    if pad == 0 then s
    else if a == Left || (a == Center && pad % 2 == 1) then Grow(s, a, fill, pad - 1) + [fill]
    else [fill] + Grow(s, a, fill, pad - 1)
  }

  lemma RepeatSnoc(c: char, n: nat)
    ensures Repeat(c, n) + [c] == Repeat(c, n + 1)
  {
    assert (Repeat(c, n) + [c])[..n] == Repeat(c, n);
  }

  lemma {:induction false} GrowSplits(s: string, a: Align, fill: char, pad: nat)
    ensures Grow(s, a, fill, pad)
            == Repeat(fill, LeftCount(a, pad)) + s + Repeat(fill, pad - LeftCount(a, pad))
  {
    if pad > 0 {
      GrowSplits(s, a, fill, pad - 1);
      var l, l' := LeftCount(a, pad - 1), LeftCount(a, pad);
      if a == Left || (a == Center && pad % 2 == 1) {
        assert l' == l;
        RepeatSnoc(fill, pad - 1 - l);
      } else {
        assert l' == l + 1;
      }
    }
  }

  /** The closed form `Pad` agrees with the step-by-step `Grow`. */
  lemma PadIsGrow(s: string, width: nat, a: Align, fill: char)
    ensures Pad(s, width, a, fill) == Grow(s, a, fill, PadCount(|s|, width))
  {
    GrowSplits(s, a, fill, PadCount(|s|, width));
  }

  /** Total number of characters in `lines`. */
  function TotalLength(lines: seq<string>): nat
  {
    if lines == [] then 0 else |lines[0]| + TotalLength(lines[1..])
  }

  /** `[sep].join(lines)` in Python: the lines in order with one separator
      between neighbours, so the text opens with the first line and is as long
      as the lines together plus one separator fewer than there are lines. */
  function Join(lines: seq<string>, sep: char): (r: string)
    ensures lines == [] ==> r == ""
    ensures lines != [] ==> |r| == TotalLength(lines) + |lines| - 1
    ensures lines != [] ==> r[..|lines[0]|] == lines[0]
  {
    if |lines| == 0 then ""
    else if |lines| == 1 then lines[0]
    else lines[0] + [sep] + Join(lines[1..], sep)
  }

  /** Joining a middle line with an optional line before and after it puts a
      separator between neighbours only. */
  lemma JoinAround(before: string, middle: string, after: string,
                   hasBefore: bool, hasAfter: bool, sep: char)
    ensures Join((if hasBefore then [before] else []) + [middle] + (if hasAfter then [after] else []), sep)
            == (if hasBefore then before + [sep] else []) + middle + (if hasAfter then [sep] + after else [])
  {
    var ls := (if hasBefore then [before] else []) + [middle] + (if hasAfter then [after] else []);
    if hasBefore && hasAfter {
      assert ls[1..] == [middle, after] && ls[1..][1..] == [after];
      assert Join(ls[1..], sep) == middle + [sep] + after;
    } else if hasBefore {
      assert ls[1..] == [middle];
    } else if hasAfter {
      assert ls[1..] == [after];
    } else {
      assert ls == [middle];
    }
  }

  /** `s.split(sep)` in Python: the pieces between the separators, so there is
      always one more piece than there are separators. */
  function Split(s: string, sep: char): (r: seq<string>)
    ensures |r| >= 1
    ensures sep !in s ==> r == [s]
    decreases |s|
  {
    if |s| == 0 then [""]
    else
      var rest := Split(s[1..], sep);
      if s[0] == sep then [""] + rest
      else
        assert sep !in s ==> sep !in s[1..] && [s[0]] + s[1..] == s;
        [[s[0]] + rest[0]] + rest[1..]
  }

  lemma {:induction false} SplitAfter(a: string, b: string, sep: char)
    requires sep !in a
    ensures Split(a + [sep] + b, sep) == [a] + Split(b, sep)
    decreases |a|
  {
    if |a| == 0 {
      assert a + [sep] + b == [sep] + b;
      assert ([sep] + b)[1..] == b;
    } else {
      var s := a + [sep] + b;
      assert s[1..] == a[1..] + [sep] + b;
      SplitAfter(a[1..], b, sep);
      assert [a[0]] + a[1..] == a;
    }
  }

  /** Splitting undoes joining when no line holds the separator. */
  lemma {:induction false} SplitJoin(lines: seq<string>, sep: char)
    requires |lines| >= 1
    requires forall i :: 0 <= i < |lines| ==> sep !in lines[i]
    ensures Split(Join(lines, sep), sep) == lines
    decreases |lines|
  {
    if |lines| > 1 {
      SplitJoin(lines[1..], sep);
      SplitAfter(lines[0], Join(lines[1..], sep), sep);
      assert [lines[0]] + lines[1..] == lines;
    }
  }
}
