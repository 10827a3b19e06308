# Banner comments (`commenter.py`) in Dafny

`commenter.py` turns a section name into a "fancy comment" for Python
sources. The name is wrapped as `<   name   >` and padded to a field
width (80 by default) with a fill character (`'='` by default). The field is
centred by default, and the line is prefixed with `#`. Optionally a top rule
`^  …  ^` and a bottom rule `v  …  v` frame it. Their blank part is as long
as the name. With centred alignment and a field at least `len(name) + 8`
wide, `^` and `v` therefore sit one column inside `<` and `>`. The lines
are joined with line breaks. The result either goes to the clipboard (the
default) or is returned. The presets `h1`–`h4` bind some of the keyword
arguments ahead of time.

The model has two modules:

- `PyFormat` (PyFormat.dfy): the parts of Python's string handling the
  formatter relies on. These are the padding rule of a format spec
  `{s:{fill}{align}{width}}` applied to a string (`Pad`), `c * n` (`Repeat`),
  `sep.join` (`Join`) and its inverse `str.split` (`Split`). `Pad` has an
  independent step-by-step reference, `Grow`, and the two are proved equal.
  `Split` is proved to undo `Join`.
- `Commenter` (Commenter.dfy): `_commenter` (`Commented`), the label shapes,
  the filter over `(top, middle, bottom)`, `decorated_section`
  (`DecoratedSection`) and the presets. The presets are `Settings` values:
  `H1`–`H4` are the defaults updated the way commenter.py:89-92 binds them, and
  `Apply` calls `DecoratedSection` with a setting.

Everything is pure. `width` is a `nat`, `align` a three-valued datatype
(`'<'`, `'^'`, `'>'`), and `fill` a single `char`. The result of
`decorated_section` is an `Option<string>`: `None` is Python's `None`, which
is what the function returns when it copies to the clipboard.

Three points of the code's behaviour that the model follows exactly:

- The code does not check the width. Width 0 gives a format spec that pads
  nothing, so the label comes out unpadded. `Pad` models that (`PadCount` is
  0). Negative widths cannot be expressed, because `width` is a `nat`.
- `decorated_section` returns one string with the lines joined by `'\n'`, or
  `None` when copying; it never returns the lines themselves. `Lines` is the
  sequence of lines, `DecoratedSection` is the joined string, and
  `SectionRoundTrip` relates the two.
- Python's `'^'` puts `pad // 2` fill characters on the left and the rest on
  the right, so an odd fill character goes right. `PadAlign` states this and
  `Grow` gives it a second reading.

## Model

| member | source | states |
|---|---|---|
| `PyFormat.Repeat` | commenter.py:73 | `c * n` has length `n`, and every character is `c` |
| `PyFormat.Pad` | commenter.py:54 | the padded field is `max(width, len(s))` long; a label at least as wide as the field is emitted whole, untruncated; the label sits after `LeftCount` fill characters |
| `PyFormat.PadFill` | commenter.py:54 | every character of the field before or after the label is the fill character |
| `PyFormat.PadAlign` | commenter.py:50-54 | `'<'` starts the field with the label; `'>'` ends it with the label; `'^'` puts `pad // 2` fills before and `pad - pad // 2` fills after, so the odd fill goes right |
| `PyFormat.PadContent` | commenter.py:54 | the `j`-th label character is at position `LeftCount + j` of the field |
| `PyFormat.PadIsGrow` | commenter.py:54 | the closed form equals the one-fill-at-a-time reference `Grow` (left alignment grows right, right alignment grows left, centring alternates starting on the right) |
| `PyFormat.Join` | commenter.py:81 | `'\n'.join` of no lines is empty; otherwise the text opens with the first line and is as long as all lines together plus one separator per gap |
| `PyFormat.Split` | commenter.py:81 | splitting always yields at least one piece, and a text without the separator is a single piece |
| `PyFormat.SplitJoin` | commenter.py:81 | splitting a `sep.join` of lines that contain no `sep` gives back exactly those lines |
| `PyFormat.JoinAround` | commenter.py:81 | joining an optional line, a middle line and an optional line puts a separator only between neighbours that are present |
| `Commenter.Commented` | commenter.py:48-55 | the line is `'#'` plus a field of `max(width, len(label))` characters; a label at least as wide as the field gives exactly `'#' + label` |
| `Commenter.MiddleLabel` | commenter.py:69 | the middle label is `len(name) + 8` long, opens with `'<'` and three spaces, closes with three spaces and `'>'`, and holds the name from position 4 |
| `Commenter.RuleLabel` | commenter.py:73-77 | a rule label is `len(name) + 6` long, has the marker at both ends and only spaces between |
| `Commenter.Candidates` | commenter.py:67-79 | the tuple `(top, middle, bottom)` has three entries; `top` is a value exactly when `topline` and is then `_commenter` of the `^` rule label; `middle` is always `_commenter` of the middle label; `bottom` is a value exactly when `bottomline` and is then `_commenter` of the `v` rule label |
| `Commenter.Truthy` | commenter.py:81 | the generator `x for x in xs if x` keeps no more values than it is given; a string is kept exactly when it is present in the input and non-empty |
| `Commenter.TruthyAppend` | commenter.py:81 | the filter keeps the input's order: filtering a concatenation is the concatenation of the filtered parts |
| `Commenter.FilterKeepsPresent` | commenter.py:67-81 | filtering `(top, middle, bottom)` drops exactly the rules that are switched off, because every line is non-empty |
| `Commenter.Lines` | commenter.py:67-81 | there are `1 + [topline] + [bottomline]` lines; the middle line is always present and is `_commenter` of the middle label; the `^` rule is first exactly when `topline`; the `v` rule is last exactly when `bottomline` |
| `Commenter.LinesAreSingle` | commenter.py:69-79 | no line contains a line break unless the name or the fill character does |
| `Commenter.DecoratedSection` | commenter.py:58-86 | with `copy` nothing is returned; without it the text is returned, and it starts with `'#'` |
| `Commenter.SectionLayout` | commenter.py:72-86 | the returned text is the top rule and `'\n'` when `topline`, then the middle line, then `'\n'` and the bottom rule when `bottomline` |
| `Commenter.SectionRoundTrip` | commenter.py:81-86 | splitting the returned text at `'\n'` gives back exactly the lines, in order top, middle, bottom, if the name contains no line break and the fill is not one |
| `Commenter.RuleColumns` | commenter.py:72-79 | a centred rule line is `width + 1` long, with its markers at `OpenColumn + 1` and `OpenColumn + len(name) + 6` and only spaces between them |
| `Commenter.MiddleColumns` | commenter.py:69-70 | a centred middle line is `width + 1` long, with `'<'` at `OpenColumn` and `'>'` at `OpenColumn + len(name) + 7` |
| `Commenter.FittedWidth` | commenter.py:69-79 | whenever the field fits the middle label, every line of the section is exactly `width + 1` characters long, whatever the alignment |
| `Commenter.CentredColumns` | commenter.py:10-13 | centred, the `'^'` and `'v'` markers sit one column right of `'<'` and one column left of `'>'`, with only spaces between them |
| `Commenter.PresetSettings` | commenter.py:89-92 | the presets keep the defaults of commenter.py:60-65 (width 80, `'^'`, copy) and differ only in rules and fill: `h1` draws both rules with `'='`; `h2`, `h3`, `h4` draw none, with `'='`, `'-'` and `' '` |
| `Commenter.Apply` | commenter.py:58-65 | calling `decorated_section` with a setting's keywords returns nothing exactly when the setting copies, and otherwise a text starting with `'#'` |
| `Commenter.PresetsCopy` | commenter.py:89-92 | every preset copies by default, and so returns nothing |
| `Commenter.FramedPreset` | commenter.py:89 | `h1` gives the `^` rule, the middle line and the `v` rule, centred in 80 columns with `'='`, joined by `'\n'` |
| `Commenter.PlainPresets` | commenter.py:90-92 | `h2`, `h3` and `h4` give only the middle line, centred in 80 columns, with `'='`, `'-'` and `' '` respectively |
| `Commenter.SubsectionExample` | commenter.py:5-8 | `h3('Subsection Header', copy=False)` returns `'#'`, 27 dashes, the label, then 28 dashes, which agrees with the usage example's line up to its `[...]` |
| `Commenter.ImportantSectionExample` | commenter.py:10-13 | `h1('Important Section Header', copy=False)` returns three lines that agree with the visible part of commenter.py:11-13 (each up to its `[...]`), with `^` and `v` one column inside `<` and `>` |

## Left out

- The clipboard write `pyperclip.copy` (commenter.py:84) is an OS side effect through a foreign library. The model states only that `copy=True` returns nothing.
- The `toolz.curry` and `assoc(locals(), …)` plumbing (commenter.py:44-45, 58, 70, 74, 78-79) is left out. It amounts to calling `_commenter(label, width, align, fill)`, and that is how the model calls it. Presets are `Settings` values, and a caller's keyword override is a datatype update (`H1.(width := 60)`).
- Arguments that make Python's format machinery raise `ValueError` are ruled out by the types rather than modelled as errors: a negative width (its `-` reads as a sign, which a string spec refuses) and an alignment token such as `'='` that strings do not accept. `align` is the three-valued `Align`, `width` a `nat`.
- Widths beyond `sys.maxsize` raise `ValueError` ("Too many decimal digits in format string"), and widths that fit but whose padded string cannot be allocated raise `MemoryError`. Neither is modelled: `width` is an unbounded `nat` and `Pad` returns the padded string for every width.
- `fill` is one `char`. `fill=''` builds the spec `'^80'`, which pads with spaces exactly like `fill=' '`; the model covers that call through `' '`.
- Odd spec combinations are not modelled: a fill of two or more characters, which makes the spec invalid and raises `ValueError`, and an empty or `'0'` alignment combined with a fill of `<`, `^` or `>` (for example `align=''`, `fill='<'` gives the spec `'<80'`, which left-aligns with spaces).
- Lengths count Unicode scalar values, as Python's `len` counts code points for every string a `char` sequence can hold. A Python string may also hold lone surrogate code points, which a Dafny `char` cannot; such names are not modelled. Display width of wide characters is not modelled; `_commenter` does not account for it either.
- `dashboard_template.py` is not part of this model. It is glue over a plotting and session library, plus argument parsing and a polling loop.
- `sousveillance.py` is not part of this model. It consists of directory creation, a random sleep, a timestamp and calls to external capture programs.
