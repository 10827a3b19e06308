/** Banner comments for Python sources: a label is wrapped as `<   label   >`,
    padded to a field width with a fill character and prefixed with `#`;
    optional `^` and `v` rules frame it from above and below. */
module Commenter {
  import opened PyFormat

  /** `_commenter`: `'#'` followed by the text padded to `width` with `fill`.
      Keyword arguments beyond these four are accepted and ignored by
      `_commenter`, so they do not appear here. */
  function Commented(text: string, width: nat, align: Align, fill: char): (r: string)
    ensures |r| == 1 + Max(width, |text|)
    ensures r[0] == '#'
    ensures width <= |text| ==> r == "#" + text
  {
    "#" + Pad(text, width, align, fill)
  }

  /** A line of `Commented` holds a character only if the text or the fill
      does. */
  lemma CommentedKeepsOut(text: string, width: nat, align: Align, fill: char, c: char)
    requires c != '#' && c != fill && c !in text
    ensures c !in Commented(text, width, align, fill)
  {
    var pad := PadCount(|text|, width);
    var left := LeftCount(align, pad);
    assert c !in Repeat(fill, left) && c !in Repeat(fill, pad - left);
  }

  /** The text of the middle line: the name between `<` and `>`, three
      spaces on either side. */
  function MiddleLabel(name: string): (r: string)
    ensures |r| == |name| + 8
    ensures r[0] == '<' && r[|r| - 1] == '>'
    ensures r[1..4] == "   " && r[|name| + 4..|name| + 7] == "   "
    ensures r[4..4 + |name|] == name
  {
    "<   " + name + "   >"
  }

  /** The text of a rule line for a name of `n` characters: a marker, two
      spaces, `n` spaces, two spaces and the marker again. */
  function RuleLabel(marker: char, n: nat): (r: string)
    ensures |r| == n + 6
    ensures r[0] == marker && r[|r| - 1] == marker
    ensures forall i :: 1 <= i < |r| - 1 ==> r[i] == ' '
  {
    [marker] + "  " + Repeat(' ', n) + "  " + [marker]
  }

  /** A rule's text holds only its marker and spaces. */
  lemma RuleKeepsOut(marker: char, n: nat, c: char)
    requires c != marker && c != ' '
    ensures c !in RuleLabel(marker, n)
  {
    assert c !in Repeat(' ', n);
  }

  /** The tuple `(top, middle, bottom)` before filtering: a rule that is
      switched off is `None`. */
  function Candidates(name: string, width: nat, align: Align, fill: char,
                      topline: bool, bottomline: bool): (r: seq<Option<string>>)
    ensures |r| == 3
    ensures r[0].Some? <==> topline
    ensures r[1] == Some(Commented(MiddleLabel(name), width, align, fill))
    ensures r[2].Some? <==> bottomline
    ensures topline ==> r[0].value == Commented(RuleLabel('^', |name|), width, align, fill)
    ensures bottomline ==> r[2].value == Commented(RuleLabel('v', |name|), width, align, fill)
  {
    [ if topline then Some(Commented(RuleLabel('^', |name|), width, align, fill)) else None,
      Some(Commented(MiddleLabel(name), width, align, fill)),
      if bottomline then Some(Commented(RuleLabel('v', |name|), width, align, fill)) else None ]
  }

  /** Python's `x for x in xs if x`: keeps the values that are truthy, that
      is, neither `None` nor the empty string. */
  function Truthy(xs: seq<Option<string>>): (r: seq<string>)
    ensures |r| <= |xs|
    ensures forall i :: 0 <= i < |r| ==> r[i] != ""
    ensures forall x :: x in r <==> Some(x) in xs && x != ""
  {
    if xs == [] then []
    else
      var rest := Truthy(xs[1..]);
      assert forall y :: y in xs <==> y == xs[0] || y in xs[1..];
      (if xs[0].Some? && xs[0].value != "" then [xs[0].value] else []) + rest
  }

  /** The filter keeps order: filtering two pieces one after the other is
      filtering them together. */
  lemma {:induction false} TruthyAppend(xs: seq<Option<string>>, ys: seq<Option<string>>)
    ensures Truthy(xs + ys) == Truthy(xs) + Truthy(ys)
    decreases |xs|
  {
    if xs != [] {
      assert (xs + ys)[1..] == xs[1..] + ys;
      TruthyAppend(xs[1..], ys);
    } else {
      assert xs + ys == ys;
    }
  }

  /** The lines of a section, in the order top, middle, bottom: the middle line
      always, the top rule exactly when `topline`, the bottom rule exactly when
      `bottomline`. */
  function Lines(name: string, width: nat, align: Align, fill: char,
                 topline: bool, bottomline: bool): (r: seq<string>)
    ensures |r| == 1 + (if topline then 1 else 0) + (if bottomline then 1 else 0)
    ensures r[if topline then 1 else 0] == Commented(MiddleLabel(name), width, align, fill)
    ensures topline ==> r[0] == Commented(RuleLabel('^', |name|), width, align, fill)
    ensures bottomline ==> r[|r| - 1] == Commented(RuleLabel('v', |name|), width, align, fill)
  {
    (if topline then [Commented(RuleLabel('^', |name|), width, align, fill)] else [])
    + [Commented(MiddleLabel(name), width, align, fill)]
    + (if bottomline then [Commented(RuleLabel('v', |name|), width, align, fill)] else [])
  }

  /** The filter in `decorated_section` drops exactly the rules that are switched off:
      every line it sees is non-empty, so only the `None` entries go. */
  lemma FilterKeepsPresent(name: string, width: nat, align: Align, fill: char,
                            topline: bool, bottomline: bool)
    ensures Truthy(Candidates(name, width, align, fill, topline, bottomline))
            == Lines(name, width, align, fill, topline, bottomline)
  {
    TruthyAround(Commented(RuleLabel('^', |name|), width, align, fill),
                 Commented(MiddleLabel(name), width, align, fill),
                 Commented(RuleLabel('v', |name|), width, align, fill),
                 topline, bottomline);
  }

  /** The filter keeps a non-empty middle value and the non-empty values
      around it that are present, in their order. */
  lemma {:induction false} TruthyAround(before: string, middle: string, after: string,
                                        hasBefore: bool, hasAfter: bool)
    requires before != "" && middle != "" && after != ""
    ensures Truthy([if hasBefore then Some(before) else None, Some(middle),
                    if hasAfter then Some(after) else None])
            == (if hasBefore then [before] else []) + [middle] + (if hasAfter then [after] else [])
  {
    var c := [if hasBefore then Some(before) else None, Some(middle),
              if hasAfter then Some(after) else None];
    assert c[1..] == [c[1], c[2]] && c[1..][1..] == [c[2]] && c[1..][1..][1..] == [];
    assert Truthy([c[2]]) == if hasAfter then [after] else [];
    assert Truthy([c[1], c[2]]) == [middle] + Truthy([c[2]]);
  }

  /** None of the three candidate lines holds a line break unless the name
      or the fill character does. */
  lemma CandidatesAreSingle(name: string, width: nat, align: Align, fill: char)
    requires '\n' !in name && fill != '\n'
    ensures '\n' !in Commented(RuleLabel('^', |name|), width, align, fill)
    ensures '\n' !in Commented(MiddleLabel(name), width, align, fill)
    ensures '\n' !in Commented(RuleLabel('v', |name|), width, align, fill)
  {
    RuleKeepsOut('^', |name|, '\n');
    RuleKeepsOut('v', |name|, '\n');
    CommentedKeepsOut(RuleLabel('^', |name|), width, align, fill, '\n');
    CommentedKeepsOut(MiddleLabel(name), width, align, fill, '\n');
    CommentedKeepsOut(RuleLabel('v', |name|), width, align, fill, '\n');
  }

  /** No line of a section holds a line break unless the name or the fill
      character does. */
  lemma LinesAreSingle(name: string, width: nat, align: Align, fill: char,
                       topline: bool, bottomline: bool)
    requires '\n' !in name && fill != '\n'
    ensures var ls := Lines(name, width, align, fill, topline, bottomline);
            forall i :: 0 <= i < |ls| ==> '\n' !in ls[i]
  {
    CandidatesAreSingle(name, width, align, fill);
    var ls := Lines(name, width, align, fill, topline, bottomline);
    forall i | 0 <= i < |ls| ensures '\n' !in ls[i] {
      if topline && i == 0 {
        assert ls[i] == Commented(RuleLabel('^', |name|), width, align, fill);
      } else if bottomline && i == |ls| - 1 {
        assert ls[i] == Commented(RuleLabel('v', |name|), width, align, fill);
      } else {
        assert ls[i] == Commented(MiddleLabel(name), width, align, fill);
      }
    }
  }

  /** `decorated_section`: the lines joined with `'\n'`. With `copy` the
      text goes to the clipboard and nothing is returned; otherwise it is
      returned, and it opens with the comment marker `'#'`. */
  function DecoratedSection(name: string, width: nat, align: Align, fill: char,
                            topline: bool, bottomline: bool, copy: bool): (r: Option<string>)
    ensures r.None? <==> copy
    ensures r.Some? ==> |r.value| > 0 && r.value[0] == '#'
  {
    var lines := Lines(name, width, align, fill, topline, bottomline);
    if copy then None else Some(Join(lines, '\n'))
  }

  /** Splitting the returned text at its line breaks gives back the lines of
      the section, provided neither the name nor the fill character is itself
      a line break. */
  lemma SectionRoundTrip(name: string, width: nat, align: Align, fill: char,
                         topline: bool, bottomline: bool)
    requires '\n' !in name && fill != '\n'
    ensures Split(DecoratedSection(name, width, align, fill, topline, bottomline, false).value, '\n')
            == Lines(name, width, align, fill, topline, bottomline)
  {
    LinesAreSingle(name, width, align, fill, topline, bottomline);
    SplitJoin(Lines(name, width, align, fill, topline, bottomline), '\n');
  }

  /** The text a section returns: the top rule and a line break when
      `topline`, the middle line, then a line break and the bottom rule when
      `bottomline`. */
  lemma SectionLayout(name: string, width: nat, align: Align, fill: char,
                      topline: bool, bottomline: bool)
    ensures var top := Commented(RuleLabel('^', |name|), width, align, fill);
            var mid := Commented(MiddleLabel(name), width, align, fill);
            var bot := Commented(RuleLabel('v', |name|), width, align, fill);
            DecoratedSection(name, width, align, fill, topline, bottomline, false)
            == Some((if topline then top + "\n" else "") + mid + (if bottomline then "\n" + bot else ""))
  {
    var top := Commented(RuleLabel('^', |name|), width, align, fill);
    var mid := Commented(MiddleLabel(name), width, align, fill);
    var bot := Commented(RuleLabel('v', |name|), width, align, fill);
    JoinAround(top, mid, bot, topline, bottomline, '\n');
  }

  /** Column of `'<'` on the middle line of a centred section whose field is
      wide enough for the whole middle text. */
  function OpenColumn(name: string, width: nat): nat
    requires width >= |name| + 8
  {
    1 + (width - (|name| + 8)) / 2
  }

  /** `line` holds `marker` at columns `i` and `j` and only spaces between. */
  predicate RuleAt(line: string, marker: char, i: nat, j: nat)
  {
    && i < j < |line|
    && line[i] == marker && line[j] == marker
    && forall k :: i < k < j ==> line[k] == ' '
  }

  /** A centred rule line is `width + 1` wide, its markers one column right of
      the middle line's `'<'` and one column left of its `'>'`. */
  lemma RuleColumns(marker: char, name: string, width: nat, fill: char)
    requires width >= |name| + 8
    ensures var line := Commented(RuleLabel(marker, |name|), width, Center, fill);
            var c := OpenColumn(name, width);
            |line| == width + 1 && RuleAt(line, marker, c + 1, c + |name| + 6)
  {
    var c := OpenColumn(name, width);
    var text := RuleLabel(marker, |name|);
    var field := Pad(text, width, Center, fill);
    // The rule's text is two characters shorter than the middle one, so its
    // padding is two wider and its left half one wider.
    assert LeftCount(Center, PadCount(|text|, width)) == c;
    forall k | c < k < c + |name| + 5 ensures field[k] == ' ' {
      PadContent(text, width, Center, fill, k - c);
    }
    PadContent(text, width, Center, fill, 0);
    PadContent(text, width, Center, fill, |name| + 5);
  }

  /** A centred middle line is `width + 1` wide, with `'<'` at `OpenColumn`
      and `'>'` at `OpenColumn + |name| + 7`. */
  lemma MiddleColumns(name: string, width: nat, fill: char)
    requires width >= |name| + 8
    ensures var line := Commented(MiddleLabel(name), width, Center, fill);
            var c := OpenColumn(name, width);
            |line| == width + 1 && line[c] == '<' && line[c + |name| + 7] == '>'
  {
    var c := OpenColumn(name, width);
    var text := MiddleLabel(name);
    var line := Commented(text, width, Center, fill);
    assert line[c..c + |text|] == text;
    assert line[c] == text[0];
    assert line[c + |name| + 7] == text[|name| + 7];
  }

  /** With a field wide enough for the middle text, every line of a section
      is exactly `width + 1` characters, whatever the alignment. */
  lemma FittedWidth(name: string, width: nat, align: Align, fill: char,
                     topline: bool, bottomline: bool)
    requires width >= |name| + 8
    ensures var ls := Lines(name, width, align, fill, topline, bottomline);
            forall i :: 0 <= i < |ls| ==> |ls[i]| == width + 1
  {
    var ls := Lines(name, width, align, fill, topline, bottomline);
    forall i | 0 <= i < |ls| ensures |ls[i]| == width + 1 {
      if topline && i == 0 {
        assert ls[i] == Commented(RuleLabel('^', |name|), width, align, fill);
      } else if bottomline && i == |ls| - 1 {
        assert ls[i] == Commented(RuleLabel('v', |name|), width, align, fill);
      } else {
        assert ls[i] == Commented(MiddleLabel(name), width, align, fill);
      }
    }
  }

  /** Centred, with a field wide enough for the middle text, `'<'` and `'>'`
      sit at `OpenColumn` and `OpenColumn + |name| + 7` of the middle line,
      and the `'^'` and `'v'` markers one column inside them, with only
      spaces between the markers. */
  lemma CentredColumns(name: string, width: nat, fill: char, topline: bool, bottomline: bool)
    requires width >= |name| + 8
    ensures var ls := Lines(name, width, Center, fill, topline, bottomline);
            var mid := ls[if topline then 1 else 0];
            var c := OpenColumn(name, width);
            mid[c] == '<' && mid[c + |name| + 7] == '>'
    ensures var ls := Lines(name, width, Center, fill, topline, bottomline);
            var c := OpenColumn(name, width);
            topline ==> RuleAt(ls[0], '^', c + 1, c + |name| + 6)
    ensures var ls := Lines(name, width, Center, fill, topline, bottomline);
            var c := OpenColumn(name, width);
            bottomline ==> RuleAt(ls[|ls| - 1], 'v', c + 1, c + |name| + 6)
  {
    MiddleColumns(name, width, fill);
    RuleColumns('^', name, width, fill);
    RuleColumns('v', name, width, fill);
  }

  /** The keyword arguments of `decorated_section`, with their defaults. */
  datatype Settings = Settings(width: nat, align: Align, fill: char,
                               topline: bool, bottomline: bool, copy: bool)

  const Defaults: Settings := Settings(80, Center, '=', false, false, true)

  /** The presets bind some keywords ahead of time; a caller may still
      override any of them, which is a datatype update here (`H1.(width := 60)`). */
  const H1: Settings := Defaults.(topline := true, bottomline := true)
  const H2: Settings := Defaults
  const H3: Settings := Defaults.(fill := '-')
  const H4: Settings := Defaults.(fill := ' ')

  /** The presets differ only in their rules and fill: all are centred in
      80 columns and copy, `h1` alone draws both rules, and the fills are
      `'='`, `'='`, `'-'` and `' '`. */
  lemma PresetSettings()
    ensures forall s :: s in [H1, H2, H3, H4] ==> s.width == 80 && s.align == Center && s.copy
    ensures H1.topline && H1.bottomline && H1.fill == '='
    ensures forall s :: s in [H2, H3, H4] ==> !s.topline && !s.bottomline
    ensures H2.fill == '=' && H3.fill == '-' && H4.fill == ' '
  {
  }

  /** A call of `decorated_section` with the keywords of `s`: nothing comes
      back when the setting copies, and otherwise a comment text. */
  function Apply(name: string, s: Settings): (r: Option<string>)
    ensures r.None? <==> s.copy
    ensures r.Some? ==> |r.value| > 0 && r.value[0] == '#'
  {
    DecoratedSection(name, s.width, s.align, s.fill, s.topline, s.bottomline, s.copy)
  }

  /** All presets copy by default, and so return nothing. */
  lemma PresetsCopy(name: string)
    ensures Apply(name, H1) == None && Apply(name, H2) == None
    ensures Apply(name, H3) == None && Apply(name, H4) == None
  {
  }

  /** Asked to return, `h1` gives the middle line framed by both rules,
      filled with `'='` and centred in 80 columns. */
  lemma FramedPreset(name: string)
    ensures Apply(name, H1.(copy := false))
            == Some(Commented(RuleLabel('^', |name|), 80, Center, '=') + "\n"
                    + Commented(MiddleLabel(name), 80, Center, '=') + "\n"
                    + Commented(RuleLabel('v', |name|), 80, Center, '='))
  {
    SectionLayout(name, 80, Center, '=', true, true);
    var top := Commented(RuleLabel('^', |name|), 80, Center, '=');
    var mid := Commented(MiddleLabel(name), 80, Center, '=');
    var bot := Commented(RuleLabel('v', |name|), 80, Center, '=');
    assert top + "\n" + mid + ("\n" + bot) == top + "\n" + mid + "\n" + bot;
  }

  /** Asked to return, `h2`, `h3` and `h4` give the middle line alone,
      filled with `'='`, `'-'` and `' '` and centred in 80 columns. */
  lemma PlainPresets(name: string)
    ensures Apply(name, H2.(copy := false)) == Some(Commented(MiddleLabel(name), 80, Center, '='))
    ensures Apply(name, H3.(copy := false)) == Some(Commented(MiddleLabel(name), 80, Center, '-'))
    ensures Apply(name, H4.(copy := false)) == Some(Commented(MiddleLabel(name), 80, Center, ' '))
  {
    SectionLayout(name, 80, Center, '=', false, false);
    SectionLayout(name, 80, Center, '-', false, false);
    SectionLayout(name, 80, Center, ' ', false, false);
  }

  /** A centred line spelled out: `'#'`, the smaller half of the fill, the
      text, the larger half. */
  lemma CentredLine(text: string, width: nat, fill: char)
    ensures var pad := PadCount(|text|, width);
            Commented(text, width, Center, fill)
            == "#" + Repeat(fill, pad / 2) + text + Repeat(fill, pad - pad / 2)
  {
  }

  /** The `h3` example of the module's documentation. */
  lemma SubsectionExample()
    ensures Apply("Subsection Header", H3.(copy := false))
            == Some("#" + Repeat('-', 27) + "<   Subsection Header   >" + Repeat('-', 28))
  {
    var text := MiddleLabel("Subsection Header");
    assert text == "<   Subsection Header   >";
    CentredLine(text, 80, '-');
    PlainPresets("Subsection Header");
  }

  /** The rules of the `h1` example, each spelled out. */
  lemma ImportantRule(marker: char)
    ensures Commented(RuleLabel(marker, 24), 80, Center, '=')
            == "#" + Repeat('=', 25) + [marker] + Repeat(' ', 28) + [marker] + Repeat('=', 25)
  {
    var text := RuleLabel(marker, 24);
    assert text == [marker] + Repeat(' ', 28) + [marker];
    CentredLine(text, 80, '=');
  }

  /** The `h1` example of the module's documentation, for the name used
      there: the markers `^` and `v` sit one column inside `<` and `>`. */
  lemma ImportantSectionExample(name: string)
    // the name comes in as a parameter so the solver does not unfold the literal
    requires name == "Important Section Header"
    ensures Apply(name, H1.(copy := false))
            == Some(("#" + Repeat('=', 25) + "^" + Repeat(' ', 28) + "^" + Repeat('=', 25)) + "\n"
                  + ("#" + Repeat('=', 24) + "<   " + name + "   >" + Repeat('=', 24)) + "\n"
                  + ("#" + Repeat('=', 25) + "v" + Repeat(' ', 28) + "v" + Repeat('=', 25)))
  {
    assert |name| == 24;
    var mid := MiddleLabel(name);
    CentredLine(mid, 80, '=');
    assert "#" + Repeat('=', 24) + mid + Repeat('=', 24)
        == "#" + Repeat('=', 24) + "<   " + name + "   >" + Repeat('=', 24);
    ImportantRule('^');
    ImportantRule('v');
    FramedPreset(name);
  }
}
