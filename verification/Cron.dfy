/**
  The cron matcher, character by character as the scheduler runs it, and what it means on
  fields printed from a grammar.
 */
module Cron {
  import opened Common
  import opened JsText

  /** The local calendar fields of a date, as the Date getters give them (months count from 0). */
  datatype Calendar = Calendar(minute: nat, hour: nat, day: nat, month: nat, weekday: nat)

  /** value % step === 0, where a NaN or zero step makes the remainder NaN. */
  predicate StepHits(distance: int, step: Option<int>) {
    step.Some? && step.value != 0 && Rem(distance, step.value) == 0
  }

  /** The start and the step that a stepped part is read as; a star starts at 0. */
  function SteppedBy(part: string): (Option<int>, Option<int>)
    requires '/' in part
  {
    SplitHasTwo(part, '/');
    var pieces := SplitOn(part, '/');
    (if pieces[0] == "*" then Some(0) else ParseInt(SplitOn(pieces[0], '-')[0]), ParseInt(pieces[1]))
  }

  /** One iteration of the loop over the comma-separated parts. */
  predicate PartHits(part: string, value: int) {
    if '/' in part then
      var (start, step) := SteppedBy(part);
      start.Some? && StepHits(value - start.value, step)
    else if '-' in part then
      SplitHasTwo(part, '-');
      var start, end := ParseInt(SplitOn(part, '-')[0]), ParseInt(SplitOn(part, '-')[1]);
      start.Some? && end.Some? && start.value <= value <= end.value
    else ParseInt(part) == Some(value)
  }

  lemma SplitHasTwo(s: string, c: char)
    requires c in s
    ensures |SplitOn(s, c)| >= 2
  {
  }

  predicate FieldHits(field: string, value: int) {
    field == "*" || exists i :: 0 <= i < |SplitOn(field, ',')| && PartHits(SplitOn(field, ',')[i], value)
  }

  method MatchField(field: string, value: int) returns (hit: bool)
    ensures hit <==> FieldHits(field, value)
  {
    if field == "*" {
      return true;
    }
    var parts := SplitOn(field, ',');
    for i := 0 to |parts|
      invariant forall j | 0 <= j < i :: !PartHits(parts[j], value)
    {
      var part := parts[i];
      var matched := false;
      if '/' in part {
        SplitHasTwo(part, '/');
        var pieces := SplitOn(part, '/');
        var step := ParseInt(pieces[1]);
        if pieces[0] == "*" {
          matched := StepHits(value, step);
        } else {
          var start := ParseInt(SplitOn(pieces[0], '-')[0]);
          matched := start.Some? && StepHits(value - start.value, step);
        }
      } else if '-' in part {
        SplitHasTwo(part, '-');
        var pieces := SplitOn(part, '-');
        var start, end := ParseInt(pieces[0]), ParseInt(pieces[1]);
        matched := start.Some? && end.Some? && value >= start.value && value <= end.value;
      } else {
        matched := ParseInt(part) == Some(value);
      }
      if matched {
        return true;
      }
    }
    return false;
  }

  /** The five fields in order; Sunday is tried as 0 and, if that fails, as 7. */
  predicate CronHits(expr: string, date: Calendar) {
    var parts := SplitOnSpaces(TrimEnd(TrimStart(expr)));
    && |parts| >= 5
    && FieldHits(parts[0], date.minute) && FieldHits(parts[1], date.hour)
    && FieldHits(parts[2], date.day) && FieldHits(parts[3], date.month + 1)
    && (FieldHits(parts[4], date.weekday) || (date.weekday == 0 && FieldHits(parts[4], 7)))
  }

  method MatchesCron(expr: string, date: Calendar) returns (hit: bool)
    ensures hit <==> CronHits(expr, date)
  {
    var parts := SplitOnSpaces(TrimEnd(TrimStart(expr)));
    if |parts| < 5 {
      return false;
    }
    var m := MatchField(parts[0], date.minute);
    if !m { return false; }
    m := MatchField(parts[1], date.hour);
    if !m { return false; }
    m := MatchField(parts[2], date.day);
    if !m { return false; }
    m := MatchField(parts[3], date.month + 1);
    if !m { return false; }
    if parts[4] != "*" {
      m := MatchField(parts[4], date.weekday);
      if !m {
        if date.weekday != 0 { return false; }
        m := MatchField(parts[4], 7);
        if !m { return false; }
      }
    }
    return true;
  }

  // ---------------------------------------------------------------- the grammar

  /** A part of a field; numbers are kept as they are written, leading zeros included. */
  datatype Part =
    | Star
    | Single(n: string)
    | Range(from: string, to: string)
    | StarStep(step: string)
    | FromStep(from: string, step: string)
    | RangeStep(from: string, to: string, step: string)

  predicate WellFormed(p: Part) {
    match p
    case Star => true
    case Single(n) => IsNumeral(n)
    case Range(a, b) => IsNumeral(a) && IsNumeral(b)
    case StarStep(k) => IsNumeral(k)
    case FromStep(a, k) => IsNumeral(a) && IsNumeral(k)
    case RangeStep(a, b, k) => IsNumeral(a) && IsNumeral(b) && IsNumeral(k)
  }

  function Print(p: Part): string {
    match p
    case Star => "*"
    case Single(n) => n
    case Range(a, b) => a + "-" + b
    case StarStep(k) => "*/" + k
    case FromStep(a, k) => a + "/" + k
    case RangeStep(a, b, k) => a + "-" + b + "/" + k
  }

  /** v is a multiple of the step away from start, in either direction; no step of zero reaches anything. */
  predicate InResidueClass(v: int, start: int, step: int) {
    step != 0 && (v - start) % step == 0
  }

  /**
    What a part of a list means to the code: a stepped part is a whole residue class, not
    clipped to its range, and a star inside a list means nothing.
   */
  predicate Means(p: Part, v: int) {
    match p
    case Star => false
    case Single(n) => v == Value(n)
    case Range(a, b) => Value(a) <= v <= Value(b)
    case StarStep(k) => InResidueClass(v, 0, Value(k))
    case FromStep(a, k) => InResidueClass(v, Value(a), Value(k))
    case RangeStep(a, _, k) => InResidueClass(v, Value(a), Value(k))
  }

  predicate FieldOk(field: seq<Part>) {
    field != [] && forall p | p in field :: WellFormed(p)
  }

  function PrintAll(field: seq<Part>): (texts: seq<string>)
    ensures |texts| == |field| && forall i | 0 <= i < |field| :: texts[i] == Print(field[i])
  {
    if field == [] then [] else [Print(field[0])] + PrintAll(field[1..])
  }

  function PrintField(field: seq<Part>): string
    requires field != []
  {
    JoinWith(PrintAll(field), ',')
  }

  ghost predicate FieldMeans(field: seq<Part>, v: int) {
    field == [Star] || exists p :: p in field && Means(p, v)
  }

  /** What a numeral cannot contain. */
  lemma NumeralPlain(s: string)
    requires IsNumeral(s)
    ensures '/' !in s && '-' !in s && ',' !in s && '*' !in s && forall c | c in s :: !IsSpace(c)
  {
  }

  /** The piece of text before a separator, and after it when there is only one. */
  lemma SplitPair(a: string, c: char, b: string)
    requires c !in a && c !in b
    ensures SplitOn(a + [c] + b, c) == [a, b]
  {
    SplitAtFirst(a, c, b);
  }

  lemma PrintPlain(p: Part)
    requires WellFormed(p)
    ensures Print(p) != "" && ',' !in Print(p) && forall c | c in Print(p) :: !IsSpace(c)
    ensures Print(p) == "*" <==> p == Star
  {
    match p {
      case Star =>
      case Single(n) => NumeralPlain(n);
      case Range(a, b) => NumeralPlain(a); NumeralPlain(b);
      case StarStep(k) => NumeralPlain(k);
      case FromStep(a, k) => NumeralPlain(a); NumeralPlain(k);
      case RangeStep(a, b, k) => NumeralPlain(a); NumeralPlain(b); NumeralPlain(k);
    }
  }

  lemma StepHitsResidue(distance: int, k: int)
    ensures StepHits(distance, Some(k)) <==> k != 0 && distance % k == 0
  {
    if k != 0 {
      RemZero(distance, k);
    }
  }

  lemma SteppedText(range: string, step: string)
    requires '/' !in range && IsNumeral(step)
    ensures '/' in range + "/" + step
    ensures SteppedBy(range + "/" + step) ==
            (if range == "*" then Some(0) else ParseInt(SplitOn(range, '-')[0]), Some(Value(step)))
  {
    NumeralPlain(step);
    SplitPair(range, '/', step);
    assert range + "/" + step == range + ['/'] + step;
    assert (range + "/" + step)[|range|] == '/';
    ParseNumeral(step);
  }

  lemma SteppedHits(text: string, start: int, step: int, v: int)
    requires '/' in text && SteppedBy(text) == (Some(start), Some(step))
    ensures PartHits(text, v) <==> InResidueClass(v, start, step)
  {
    StepHitsResidue(v - start, step);
  }

  lemma SinglePart(n: string, v: int)
    requires IsNumeral(n)
    ensures PartHits(n, v) <==> v == Value(n)
  {
    NumeralPlain(n);
    ParseNumeral(n);
  }

  lemma RangePart(a: string, b: string, v: int)
    requires IsNumeral(a) && IsNumeral(b)
    ensures PartHits(a + "-" + b, v) <==> Value(a) <= v <= Value(b)
  {
    NumeralPlain(a);
    NumeralPlain(b);
    assert a + "-" + b == a + ['-'] + b;
    assert (a + "-" + b)[|a|] == '-';
    SplitPair(a, '-', b);
    ParseNumeral(a);
    ParseNumeral(b);
  }

  lemma RangeText(a: string, b: string)
    requires IsNumeral(a) && IsNumeral(b)
    ensures '/' !in a + "-" + b && a + "-" + b != "*" && SplitOn(a + "-" + b, '-')[0] == a
  {
    NumeralPlain(a);
    NumeralPlain(b);
    assert a + "-" + b == a + ['-'] + b && (a + "-" + b)[|a|] == '-';
    SplitPair(a, '-', b);
  }

  /** How each kind of stepped part is read. */
  lemma SteppedPrint(p: Part)
    requires WellFormed(p) && (p.StarStep? || p.FromStep? || p.RangeStep?)
    ensures '/' in Print(p)
    ensures SteppedBy(Print(p)) == (Some(if p.StarStep? then 0 else Value(p.from)), Some(Value(p.step)))
  {
    if p.StarStep? {
      assert Print(p) == "*" + "/" + p.step;
      SteppedText("*", p.step);
    } else {
      ParseNumeral(p.from);
      NumeralPlain(p.from);
      if p.FromStep? {
        assert SplitOn(p.from, '-') == [p.from];
        SteppedText(p.from, p.step);
      } else {
        RangeText(p.from, p.to);
        SteppedText(p.from + "-" + p.to, p.step);
      }
    }
  }

  /** On a printed part the character-level test is membership in the part's meaning. */
  lemma PartHitsMeans(p: Part, v: int)
    requires WellFormed(p)
    ensures PartHits(Print(p), v) <==> Means(p, v)
  {
    if p.Star? {
      assert ParseInt("*") == None;
    } else if p.Single? {
      SinglePart(p.n, v);
    } else if p.Range? {
      RangePart(p.from, p.to, v);
    } else {
      SteppedPrint(p);
      SteppedHits(Print(p), if p.StarStep? then 0 else Value(p.from), Value(p.step), v);
    }
  }

  /**
    For every field printed from a list of parts the matcher is membership in the union of the
    parts' meanings; the bare star counts only as the entire field.
   */
  lemma FieldHitsMeans(field: seq<Part>, v: int)
    requires FieldOk(field)
    ensures FieldHits(PrintField(field), v) <==> FieldMeans(field, v)
  {
    SplitPrinted(field);
    StarPrinted(field);
    if field != [Star] {
      if FieldHits(PrintField(field), v) {
        var i :| 0 <= i < |PrintAll(field)| && PartHits(PrintAll(field)[i], v);
        PartMeansAt(field, i, v);
      }
      if FieldMeans(field, v) {
        var p :| p in field && Means(p, v);
        var i :| 0 <= i < |field| && field[i] == p;
        PartMeansAt(field, i, v);
      }
    }
  }

  lemma PartMeansAt(field: seq<Part>, i: nat, v: int)
    requires FieldOk(field) && i < |field|
    ensures field[i] in field && (PartHits(PrintAll(field)[i], v) <==> Means(field[i], v))
    ensures Means(field[i], v) ==> exists p :: p in field && Means(p, v)
    ensures PartHits(PrintAll(field)[i], v) ==>
            exists k :: 0 <= k < |PrintAll(field)| && PartHits(PrintAll(field)[k], v)
  {
    PartHitsMeans(field[i], v);
  }

  lemma SplitPrinted(field: seq<Part>)
    requires FieldOk(field)
    ensures SplitOn(PrintField(field), ',') == PrintAll(field)
  {
    var texts := PrintAll(field);
    forall t | t in texts ensures ',' !in t {
      var i :| 0 <= i < |texts| && texts[i] == t;
      PrintPlain(field[i]);
    }
    SplitUndoesJoin(texts, ',');
  }

  /** Only the single star is printed as a star. */
  lemma StarPrinted(field: seq<Part>)
    requires FieldOk(field)
    ensures PrintField(field) == "*" <==> field == [Star]
  {
    var texts := PrintAll(field);
    PrintPlain(field[0]);
    if |field| > 1 {
      assert PrintField(field)[|texts[0]|] == ',';
    } else {
      assert field == [field[0]];
    }
  }

  lemma {:induction false} PrintFieldIsWord(field: seq<Part>)
    requires FieldOk(field)
    ensures IsWord(PrintField(field))
  {
    PrintPlain(field[0]);
    if |field| > 1 {
      PrintFieldIsWord(field[1..]);
      assert PrintAll(field)[1..] == PrintAll(field[1..]);
      assert PrintField(field) == Print(field[0]) + [','] + PrintField(field[1..]);
    }
  }

  /** The text of an expression: fields (five or more) between runs of white space. */
  ghost predicate Written(expr: string, words: seq<string>) {
    exists before: string, after: string, gaps: seq<string> ::
      && |gaps| == |words| && words != [] && gaps[|gaps| - 1] == ""
      && AllSpaces(before) && AllSpaces(after)
      && (forall i | 0 <= i < |gaps| - 1 :: gaps[i] != "" && AllSpaces(gaps[i]))
      && expr == before + Spaced(words, gaps) + after
  }

  lemma WordsOfExpression(expr: string, words: seq<string>)
    requires Written(expr, words) && forall i | 0 <= i < |words| :: IsWord(words[i])
    ensures SplitOnSpaces(TrimEnd(TrimStart(expr))) == words
  {
    var before, after, gaps :|
      |gaps| == |words| && words != [] && gaps[|gaps| - 1] == ""
      && AllSpaces(before) && AllSpaces(after)
      && (forall i | 0 <= i < |gaps| - 1 :: gaps[i] != "" && AllSpaces(gaps[i]))
      && expr == before + Spaced(words, gaps) + after;
    SplitUndoesSpacing(words, gaps);
    TrimBothEnds(before, Spaced(words, gaps), after);
  }

  lemma TrimBothEnds(before: string, text: string, after: string)
    requires AllSpaces(before) && AllSpaces(after)
    requires text != "" && !IsSpace(text[0]) && !IsSpace(text[|text| - 1])
    ensures TrimEnd(TrimStart(before + text + after)) == text
  {
    assert before + text + after == before + (text + after);
    TrimSpaces(before, text + after);
    TrimSpacesAtEnd(text, after);
  }

  predicate FieldsOk(fields: seq<seq<Part>>) {
    forall i | 0 <= i < |fields| :: FieldOk(fields[i])
  }

  function PrintFields(fields: seq<seq<Part>>): (words: seq<string>)
    requires FieldsOk(fields)
    ensures |words| == |fields| && forall i | 0 <= i < |fields| :: words[i] == PrintField(fields[i])
  {
    seq(|fields|, i requires 0 <= i < |fields| => PrintField(fields[i]))
  }

  lemma PrintFieldsAreWords(fields: seq<seq<Part>>, extra: seq<string>)
    requires FieldsOk(fields) && forall i | 0 <= i < |extra| :: IsWord(extra[i])
    ensures var words := PrintFields(fields) + extra; forall i | 0 <= i < |words| :: IsWord(words[i])
  {
    var words := PrintFields(fields) + extra;
    forall i | 0 <= i < |words| ensures IsWord(words[i]) {
      if i < |fields| {
        PrintFieldIsWord(fields[i]);
        assert words[i] == PrintField(fields[i]);
      } else {
        assert words[i] == extra[i - |fields|];
      }
    }
  }

  /**
    For every expression written from five well-formed fields, whatever the spacing and whatever
    words follow, the matcher is the conjunction of the five meanings (day of month and day of
    week included), with Sunday as 0 or 7.
   */
  lemma CronHitsMeans(expr: string, fields: seq<seq<Part>>, extra: seq<string>, date: Calendar)
    requires |fields| == 5 && FieldsOk(fields) && forall i | 0 <= i < |extra| :: IsWord(extra[i])
    requires Written(expr, PrintFields(fields) + extra)
    ensures CronHits(expr, date) <==>
            FieldMeans(fields[0], date.minute) && FieldMeans(fields[1], date.hour)
            && FieldMeans(fields[2], date.day) && FieldMeans(fields[3], date.month + 1)
            && (FieldMeans(fields[4], date.weekday) || (date.weekday == 0 && FieldMeans(fields[4], 7)))
  {
    var words := PrintFields(fields) + extra;
    PrintFieldsAreWords(fields, extra);
    WordsOfExpression(expr, words);
    HitsOfWords(expr, words, date);
    forall i | 0 <= i < 5 ensures Agrees(words[i], fields[i]) {
      PrintedAgrees(fields[i]);
    }
    FiveAgree(words[..5], fields, date);
  }

  /** The text of a field says what the field means. */
  ghost predicate Agrees(text: string, field: seq<Part>) {
    forall v: int :: FieldHits(text, v) <==> FieldMeans(field, v)
  }

  lemma PrintedAgrees(field: seq<Part>)
    requires FieldOk(field)
    ensures Agrees(PrintField(field), field)
  {
    forall v: int ensures FieldHits(PrintField(field), v) <==> FieldMeans(field, v) {
      FieldHitsMeans(field, v);
    }
  }

  /** The five tests on the words themselves. */
  predicate FiveHit(minute: string, hour: string, day: string, month: string, weekday: string, date: Calendar) {
    && FieldHits(minute, date.minute) && FieldHits(hour, date.hour)
    && FieldHits(day, date.day) && FieldHits(month, date.month + 1)
    && (FieldHits(weekday, date.weekday) || (date.weekday == 0 && FieldHits(weekday, 7)))
  }

  lemma HitsOfWords(expr: string, words: seq<string>, date: Calendar)
    requires SplitOnSpaces(TrimEnd(TrimStart(expr))) == words && |words| >= 5
    ensures CronHits(expr, date) <==> FiveHit(words[0], words[1], words[2], words[3], words[4], date)
  {
  }

  lemma FiveAgree(words: seq<string>, fields: seq<seq<Part>>, date: Calendar)
    requires |words| == 5 && |fields| == 5 && forall i | 0 <= i < 5 :: Agrees(words[i], fields[i])
    ensures FiveHit(words[0], words[1], words[2], words[3], words[4], date) <==>
            FieldMeans(fields[0], date.minute) && FieldMeans(fields[1], date.hour)
            && FieldMeans(fields[2], date.day) && FieldMeans(fields[3], date.month + 1)
            && (FieldMeans(fields[4], date.weekday) || (date.weekday == 0 && FieldMeans(fields[4], 7)))
  {
    assert Agrees(words[0], fields[0]) && Agrees(words[1], fields[1]) && Agrees(words[2], fields[2]);
    assert Agrees(words[3], fields[3]) && Agrees(words[4], fields[4]);
  }

  /** An expression of fewer than five words never matches. */
  lemma TooFewFields(expr: string, words: seq<string>, date: Calendar)
    requires Written(expr, words) && forall i | 0 <= i < |words| :: IsWord(words[i])
    requires |words| < 5
    ensures !CronHits(expr, date)
  {
    WordsOfExpression(expr, words);
  }

  // ---------------------------------------------------------------- numbers

  /** A field of one part is the part. */
  lemma OnePartField(p: Part, v: int)
    requires WellFormed(p) && p != Star
    ensures FieldHits(Print(p), v) <==> Means(p, v)
  {
    var field := [p];
    assert PrintAll(field) == [Print(p)] && PrintField(field) == Print(p);
    FieldHitsMeans(field, v);
    assert FieldMeans(field, v) <==> Means(p, v) by {
      assert p in field;
    }
  }

  /**
    What a field of numbers in decimal, with any leading zeros, hits: the number alone, the closed
    range, and every number that the step reaches from the start, be it above or below.
   */
  lemma NumberFields(zeros: string, a: nat, b: nat, k: nat, v: int)
    requires AllZeros(zeros)
    ensures FieldHits(zeros + Decimal(a), v) <==> v == a
    ensures FieldHits((zeros + Decimal(a)) + "-" + (zeros + Decimal(b)), v) <==> a <= v <= b
    ensures FieldHits("*/" + (zeros + Decimal(k)), v) <==> k > 0 && v % k == 0
    ensures FieldHits((zeros + Decimal(a)) + "/" + (zeros + Decimal(k)), v) <==> k > 0 && (v - a) % k == 0
    ensures FieldHits((zeros + Decimal(a)) + "-" + (zeros + Decimal(b)) + "/" + (zeros + Decimal(k)), v)
            <==> k > 0 && (v - a) % k == 0
  {
    NumberText(zeros, a);
    NumberText(zeros, b);
    NumberText(zeros, k);
    OnePartField(Single(zeros + Decimal(a)), v);
    OnePartField(Range(zeros + Decimal(a), zeros + Decimal(b)), v);
    OnePartField(StarStep(zeros + Decimal(k)), v);
    OnePartField(FromStep(zeros + Decimal(a), zeros + Decimal(k)), v);
    OnePartField(RangeStep(zeros + Decimal(a), zeros + Decimal(b), zeros + Decimal(k)), v);
  }

  /** Five numbers with a white-space character between them. */
  function FiveNumbers(n: seq<nat>, gap: char): string
    requires |n| == 5
  {
    Decimal(n[0]) + [gap] + (Decimal(n[1]) + [gap] + (Decimal(n[2]) + [gap] + (Decimal(n[3]) + [gap] + Decimal(n[4]))))
  }

  function Singles(n: seq<nat>): (fields: seq<seq<Part>>)
    ensures |fields| == |n| && forall i | 0 <= i < |n| :: fields[i] == [Single(Decimal(n[i]))]
  {
    seq(|n|, i requires 0 <= i < |n| => [Single(Decimal(n[i]))])
  }

  lemma SpacedOne(words: seq<string>, gaps: seq<string>)
    requires words != [] && |gaps| == |words|
    ensures Spaced(words, gaps) == words[0] + gaps[0] + Spaced(words[1..], gaps[1..])
  {
  }

  lemma FiveNumbersWritten(n: seq<nat>, gap: char, words: seq<string>)
    requires |n| == 5 && gap in WHITE_SPACE
    requires |words| == 5 && forall i | 0 <= i < 5 :: words[i] == Decimal(n[i])
    ensures Written(FiveNumbers(n, gap), words)
  {
    IsSpaceIff(gap);
    var g := [gap];
    var gaps := [g, g, g, g, ""];
    var w1, w2, w3, w4 := words[1..], words[1..][1..], words[1..][1..][1..], words[1..][1..][1..][1..];
    assert gaps[1..] == [g, g, g, ""] && [g, g, g, ""][1..] == [g, g, ""] && [g, g, ""][1..] == [g, ""] && [g, ""][1..] == [""];
    SpacedOne(words, gaps);
    SpacedOne(w1, [g, g, g, ""]);
    SpacedOne(w2, [g, g, ""]);
    SpacedOne(w3, [g, ""]);
    SpacedOne(w4, [""]);
    assert w4[1..] == [] && Decimal(n[4]) + "" + "" == Decimal(n[4]);
    assert Spaced(words, gaps) == FiveNumbers(n, gap);
    assert "" + Spaced(words, gaps) + "" == FiveNumbers(n, gap);
  }

  /** Five numbers are the minute, the hour, the day, the month from 1 and the weekday, where Sunday is 0 or 7. */
  lemma FiveNumbersMatchIff(n: seq<nat>, gap: char, date: Calendar)
    requires |n| == 5 && gap in WHITE_SPACE
    ensures CronHits(FiveNumbers(n, gap), date) <==>
            && date.minute == n[0] && date.hour == n[1] && date.day == n[2] && date.month + 1 == n[3]
            && (date.weekday == n[4] || (date.weekday == 0 && n[4] == 7))
  {
    var fields := Singles(n);
    forall i | 0 <= i < 5 ensures FieldOk(fields[i]) && PrintField(fields[i]) == Decimal(n[i]) {
      DecimalDenotes(n[i]);
      assert PrintAll(fields[i]) == [Decimal(n[i])];
    }
    var words := PrintFields(fields);
    FiveNumbersWritten(n, gap, words);
    assert words + [] == words;
    CronHitsMeans(FiveNumbers(n, gap), fields, [], date);
    forall i: int, v: int | 0 <= i < 5 ensures FieldMeans(fields[i], v) <==> v == n[i] {
      SingleMeans(n[i], v);
    }
  }

  lemma SingleMeans(n: nat, v: int)
    ensures FieldMeans([Single(Decimal(n))], v) <==> v == n
  {
    DecimalDenotes(n);
    assert Single(Decimal(n)) in [Single(Decimal(n))];
  }
}
