/** The numeric input shared by every calculator screen: a text box (with an
    optional slider) bound to a number owned by the parent screen. Typed text
    that reads as a number is clamped to [min, max] and handed to the parent;
    leaving the box rewrites the text as the clamped number, or as the current
    value when the text is not a number. A unit toggle can rewrite the suffix
    between years and months. */
module CalculatorInput {
  import opened Basics

  /** What the text box holds: text the user typed, together with what
      JavaScript's `Number` makes of it (`None` for NaN), or a number the
      widget itself rendered. */
  datatype Text = Typed(text: string, number: Option<real>) | Rendered(shown: real)

  /** `Number(inputValue)`: a rendered number reads back as itself. */
  function ParsedValue(t: Text): Option<real>
  {
    match t
    case Typed(_, number) => number
    case Rendered(v) => Some(v)
  }

  class Widget {
    /** The value prop: the number the parent screen currently holds. */
    var value: real
    const minimum: real
    const maximum: real
    const step: real
    var inputValue: Text
    var isFocused: bool
    /** The values handed to the parent's `onChange`, oldest first. */
    var changes: seq<real>

    /** Mounting: the text shows the value; min, max and step default to 0,
        100 and 1 when the screen leaves them out. */
    constructor (value: real, min: Option<real>, max: Option<real>, step: Option<real>)
      ensures this.value == value && inputValue == Rendered(value) && !isFocused && changes == []
      ensures minimum == (if min.Some? then min.value else 0.0)
      ensures maximum == (if max.Some? then max.value else 100.0)
      ensures this.step == (if step.Some? then step.value else 1.0)
    {
      this.value := value;
      minimum := if min.Some? then min.value else 0.0;
      maximum := if max.Some? then max.value else 100.0;
      this.step := if step.Some? then step.value else 1.0;
      inputValue := Rendered(value);
      isFocused := false;
      changes := [];
    }

    /** The parent passes a new value: the text follows it. */
    method SyncValue(newValue: real)
      modifies this
      ensures value == newValue && inputValue == Rendered(newValue)
      ensures isFocused == old(isFocused) && changes == old(changes)
    {
      value := newValue;
      inputValue := Rendered(newValue);
    }

    /** Typing: the text is kept as typed; a number is clamped to [min, max]
        and handed to the parent, anything else is not. */
    method HandleInputChange(newText: string, parsed: Option<real>)
      modifies this
      ensures inputValue == Typed(newText, parsed)
      ensures parsed.None? ==> changes == old(changes)
      ensures parsed.Some? ==> changes == old(changes) + [Clamp(parsed.value, minimum, maximum)]
      ensures parsed.Some? && minimum <= maximum ==> minimum <= changes[|changes| - 1] <= maximum
      ensures value == old(value) && isFocused == old(isFocused)
    {
      inputValue := Typed(newText, parsed);
      if parsed.Some? {
        var boundedValue := Min(Max(parsed.value, minimum), maximum);
        changes := changes + [boundedValue];
      }
    }

    /** Dragging the slider hands its first thumb's value to the parent. */
    method HandleSliderChange(values: seq<real>)
      requires |values| > 0
      modifies this
      ensures changes == old(changes) + [values[0]]
      ensures value == old(value) && inputValue == old(inputValue) && isFocused == old(isFocused)
    {
      changes := changes + [values[0]];
    }

    method HandleInputFocus()
      modifies this
      ensures isFocused
      ensures value == old(value) && inputValue == old(inputValue) && changes == old(changes)
    {
      isFocused := true;
    }

    /** Leaving the box: a number in the text is clamped, handed to the parent
        and shown; otherwise the text goes back to the current value. */
    method HandleInputBlur()
      modifies this
      ensures !isFocused && value == old(value)
      ensures match ParsedValue(old(inputValue))
        case Some(x) =>
          && changes == old(changes) + [Clamp(x, minimum, maximum)]
          && inputValue == Rendered(Clamp(x, minimum, maximum))
        case None =>
          changes == old(changes) && inputValue == Rendered(value)
    {
      isFocused := false;
      var parsedValue := ParsedValue(inputValue);
      if parsedValue.Some? {
        var boundedValue := Min(Max(parsedValue.value, minimum), maximum);
        changes := changes + [boundedValue];
        inputValue := Rendered(boundedValue);
      } else {
        inputValue := Rendered(value);
      }
    }
  }

  /** After leaving the box the text always reads as a number within
      [min, max] (when min <= max), so leaving it again hands the parent the
      very same number: clamping twice is clamping once. */
  lemma BlurSettles(t: Text, value: real, minimum: real, maximum: real)
    requires minimum <= maximum
    requires minimum <= value <= maximum
    ensures var settled := match ParsedValue(t)
        case Some(x) => Clamp(x, minimum, maximum)
        case None => value;
      && minimum <= settled <= maximum
      && Clamp(settled, minimum, maximum) == settled
      && ParsedValue(Rendered(settled)) == Some(settled)
  {
    match ParsedValue(t)
    case Some(x) => ClampIdempotent(x, minimum, maximum);
    case None =>
  }

  // ---------------------------------------------------------------------------
  // The unit suffix

  /** `pattern` occurs in `s` at position `i`. */
  predicate OccursAt(s: string, pattern: string, i: nat)
  {
    i + |pattern| <= |s| && s[i..i + |pattern|] == pattern
  }

  /** JavaScript's `String.prototype.replace` with a string pattern: only the
      first occurrence is replaced. */
  function ReplaceFirst(s: string, pattern: string, replacement: string): (r: string)
    ensures |s| < |pattern| ==> r == s
    ensures |r| == |s| || |r| == |s| - |pattern| + |replacement|
    decreases |s|
  {
    if |s| < |pattern| then s
    else if s[..|pattern|] == pattern then replacement + s[|pattern|..]
    else [s[0]] + ReplaceFirst(s[1..], pattern, replacement)
  }

  /** Without an occurrence the text is unchanged; otherwise the first
      occurrence, and only it, is replaced. */
  lemma {:induction false} ReplaceFirstSpec(s: string, pattern: string, replacement: string, i: nat)
    requires OccursAt(s, pattern, i)
    requires forall j :: 0 <= j < i ==> !OccursAt(s, pattern, j)
    ensures ReplaceFirst(s, pattern, replacement) == s[..i] + replacement + s[i + |pattern|..]
  {
    if i > 0 {
      assert !OccursAt(s, pattern, 0);
      assert s[..|pattern|] != pattern;
      forall j | 0 <= j < i - 1
        ensures !OccursAt(s[1..], pattern, j)
      {
        assert !OccursAt(s, pattern, j + 1);
        assert s[1..][j..j + |pattern|] == s[j + 1..j + 1 + |pattern|];
      }
      assert s[1..][i - 1..i - 1 + |pattern|] == s[i..i + |pattern|];
      ReplaceFirstSpec(s[1..], pattern, replacement, i - 1);
      assert s[..i] == [s[0]] + s[1..][..i - 1];
      assert s[i + |pattern|..] == s[1..][i - 1 + |pattern|..];
    }
  }

  lemma {:induction false} ReplaceFirstAbsent(s: string, pattern: string, replacement: string)
    requires forall j :: 0 <= j <= |s| ==> !OccursAt(s, pattern, j)
    ensures ReplaceFirst(s, pattern, replacement) == s
    decreases |s|
  {
    if |s| >= |pattern| {
      assert !OccursAt(s, pattern, 0);
      forall j | 0 <= j <= |s[1..]|
        ensures !OccursAt(s[1..], pattern, j)
      {
        assert !OccursAt(s, pattern, j + 1);
        if j + |pattern| <= |s[1..]| {
          assert s[1..][j..j + |pattern|] == s[j + 1..j + 1 + |pattern|];
        }
      }
      ReplaceFirstAbsent(s[1..], pattern, replacement);
      assert s == [s[0]] + s[1..];
    }
  }

  datatype TimeUnit = Years | Months

  datatype TimeUnitOptions = TimeUnitOptions(enabled: bool, currentUnit: TimeUnit)

  /** The suffix shown after the box. An absent or empty suffix, or a toggle
      that is absent or off, leaves it as given. */
  function DisplayedSuffix(suffix: Option<string>, options: Option<TimeUnitOptions>): (shown: Option<string>)
    ensures shown.None? <==> suffix.None?
    ensures options.None? || !options.value.enabled ==> shown == suffix
    ensures suffix == Some("") ==> shown == suffix
  {
    if suffix.Some? && suffix.value != "" && options.Some? && options.value.enabled then
      if options.value.currentUnit == Years then
        Some(ReplaceFirst(ReplaceFirst(suffix.value, "Months", "Years"), "months", "years"))
      else
        Some(ReplaceFirst(ReplaceFirst(suffix.value, "Years", "Months"), "years", "months"))
    else suffix
  }

  /** With the toggle off or absent the suffix is shown unchanged. */
  lemma SuffixUnchangedWithoutToggle(suffix: Option<string>, options: Option<TimeUnitOptions>)
    requires options.None? || !options.value.enabled
    ensures DisplayedSuffix(suffix, options) == suffix
  {
  }

  /** A text without the pattern's first letter cannot contain the pattern. */
  lemma AbsentByFirstLetter(s: string, pattern: string)
    requires |pattern| > 0
    requires forall k :: 0 <= k < |s| ==> s[k] != pattern[0]
    ensures forall j :: 0 <= j <= |s| ==> !OccursAt(s, pattern, j)
  {
    forall j | 0 <= j <= |s|
      ensures !OccursAt(s, pattern, j)
    {
      if j + |pattern| <= |s| {
        assert s[j..j + |pattern|][0] == s[j];
      }
    }
  }

  /** The toggle rewrites the unit word both ways. */
  lemma SuffixToYears()
    ensures DisplayedSuffix(Some("Months"), Some(TimeUnitOptions(true, Years))) == Some("Years")
  {
    assert "Months"[..6] == "Months";
    assert ReplaceFirst("Months", "Months", "Years") == "Years";
  }

  lemma SuffixToMonths()
    ensures DisplayedSuffix(Some("Years"), Some(TimeUnitOptions(true, Months))) == Some("Months")
  {
    assert "Years"[..5] == "Years";
    assert ReplaceFirst("Years", "Years", "Months") == "Months";
    AbsentByFirstLetter("Months", "years");
    ReplaceFirstAbsent("Months", "years", "months");
  }
}
