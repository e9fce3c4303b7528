/**
  Resolving the startup command: one global replacement after another, with the replacement
  text read as JavaScript reads it, against one simultaneous substitution.
 */
module Template {
  import opened Common
  import opened JsText

  // ---------------------------------------------------------------- the replacement of one variable

  /** What a replacement text stands for at one match: $$, $&, $` and $' are not taken literally. */
  function Expand(value: string, matched: string, before: string, after: string): string
    decreases |value|
  {
    if value == "" then ""
    else if value[0] == '$' && |value| > 1 && value[1] == '$' then "$" + Expand(value[2..], matched, before, after)
    else if value[0] == '$' && |value| > 1 && value[1] == '&' then matched + Expand(value[2..], matched, before, after)
    else if value[0] == '$' && |value| > 1 && value[1] == '`' then before + Expand(value[2..], matched, before, after)
    else if value[0] == '$' && |value| > 1 && value[1] == '\'' then after + Expand(value[2..], matched, before, after)
    else [value[0]] + Expand(value[1..], matched, before, after)
  }

  /** s.replace of every match of a literal pattern from position i on, left to right. */
  function ReplaceFrom(s: string, i: nat, pattern: string, value: string): string
    requires i <= |s| && pattern != ""
    decreases |s| - i
  {
    if i == |s| then ""
    else if pattern <= s[i..] then
      Expand(value, pattern, s[..i], s[i + |pattern|..]) + ReplaceFrom(s, i + |pattern|, pattern, value)
    else [s[i]] + ReplaceFrom(s, i + 1, pattern, value)
  }

  function RefText(name: string): string {
    "${" + name + "}"
  }

  function ReplaceAll(s: string, name: string, value: string): string {
    ReplaceFrom(s, 0, RefText(name), value)
  }

  /** Names that a regular expression takes literally and that a reference can hold. */
  predicate IsIdentifier(name: string) {
    forall i | 0 <= i < |name| :: IsDigit(name[i]) || 'a' <= name[i] <= 'z' || 'A' <= name[i] <= 'Z' || name[i] == '_'
  }

  // ---------------------------------------------------------------- the loop

  type Env = seq<(string, string)>

  /** The entries of an object have different keys. */
  predicate Distinct(env: Env) {
    forall i, j | 0 <= i < j < |env| :: env[i].0 != env[j].0
  }

  /** No dollar sign that a replacement text reads as a pattern; dollar-free values qualify. */
  predicate TakenLiterally(value: string) {
    forall i | 0 <= i < |value| - 1 && value[i] == '$' :: value[i + 1] !in "$&`'"
  }

  /** At position p the text holds a reference to the name, or begins one that what follows could complete. */
  predicate Meets(text: string, p: nat, name: string)
    requires p <= |text|
  {
    RefText(name) <= text[p..] || text[p..] <= RefText(name)
  }

  predicate Clear(text: string, name: string) {
    forall p | 0 <= p < |text| :: !Meets(text, p, name)
  }

  /** Each value is taken literally, and is clear of the keys that are replaced after its own. */
  predicate EnvOk(env: Env) {
    && Distinct(env)
    && (forall i | 0 <= i < |env| :: IsIdentifier(env[i].0) && TakenLiterally(env[i].1))
    && (forall i, j | 0 <= i < j < |env| :: Clear(env[i].1, env[j].0))
  }

  function Resolved(startup: string, env: Env): string
    decreases |env|
  {
    if env == [] then startup else Resolved(ReplaceAll(startup, env[0].0, env[0].1), env[1..])
  }

  method Resolve(command: string, env: Env) returns (startup: string)
    requires forall i | 0 <= i < |env| :: IsIdentifier(env[i].0)
    ensures startup == Resolved(command, env)
  {
    startup := command;
    for i := 0 to |env|
      invariant Resolved(startup, env[i..]) == Resolved(command, env)
    {
      var (key, value) := env[i];
      assert env[i..][1..] == env[i + 1..];
      startup := ReplaceAll(startup, key, value);
    }
  }

  // ---------------------------------------------------------------- templates

  datatype Segment = Literal(text: string) | Ref(name: string)

  function SegmentText(s: Segment): string {
    match s
    case Literal(text) => text
    case Ref(name) => RefText(name)
  }

  function Text(template: seq<Segment>): string {
    if template == [] then "" else SegmentText(template[0]) + Text(template[1..])
  }

  /** No dollar sign of a literal can begin a reference, whatever comes after the literal. */
  predicate LiteralOk(text: string) {
    forall i | 0 <= i < |text| && text[i] == '$' :: i + 1 < |text| && text[i + 1] != '{'
  }

  predicate TemplateOk(template: seq<Segment>) {
    forall i | 0 <= i < |template| ::
      match template[i]
      case Literal(text) => LiteralOk(text)
      case Ref(name) => IsIdentifier(name)
  }

  function Bound(env: Env, name: string): Option<string> {
    if env == [] then None else if env[0].0 == name then Some(env[0].1) else Bound(env[1..], name)
  }

  /** The reference meaning: every reference of the template at once, unknown names left as they are. */
  function Substituted(template: seq<Segment>, env: Env): string {
    if template == [] then ""
    else
      (match template[0]
       case Literal(text) => text
       case Ref(name) => (match Bound(env, name) case Some(value) => value case None => RefText(name)))
      + Substituted(template[1..], env)
  }

  /** One variable of the template filled in. */
  function Fill(template: seq<Segment>, name: string, value: string): (filled: seq<Segment>)
    ensures |filled| == |template|
    ensures forall i | 0 <= i < |template| ::
      filled[i] == if template[i] == Ref(name) then Literal(value) else template[i]
  {
    seq(|template|, i requires 0 <= i < |template| => if template[i] == Ref(name) then Literal(value) else template[i])
  }

  // ---------------------------------------------------------------- one replacement fills one variable

  lemma {:induction false} LiteralExpands(value: string, matched: string, before: string, after: string)
    requires TakenLiterally(value)
    ensures Expand(value, matched, before, after) == value
    decreases |value|
  {
    if value != "" {
      assert forall i | 0 <= i < |value[1..]| :: value[1..][i] == value[i + 1];
      LiteralExpands(value[1..], matched, before, after);
      assert value == [value[0]] + value[1..];
    }
  }

  /** Replacing without regard to what was read before. */
  function Swap(s: string, pattern: string, value: string): string
    requires pattern != ""
    decreases |s|
  {
    if s == "" then ""
    else if pattern <= s then value + Swap(s[|pattern|..], pattern, value)
    else [s[0]] + Swap(s[1..], pattern, value)
  }

  lemma ReplaceHere(s: string, i: nat, pattern: string, value: string)
    requires i < |s| && pattern != "" && pattern <= s[i..] && TakenLiterally(value)
    ensures ReplaceFrom(s, i, pattern, value) == value + ReplaceFrom(s, i + |pattern|, pattern, value)
  {
    LiteralExpands(value, pattern, s[..i], s[i + |pattern|..]);
  }

  lemma ReplaceSkips(s: string, i: nat, pattern: string, value: string)
    requires i < |s| && pattern != "" && !(pattern <= s[i..])
    ensures ReplaceFrom(s, i, pattern, value) == [s[i]] + ReplaceFrom(s, i + 1, pattern, value)
  {
  }

  lemma SwapUnfolds(rest: string, pattern: string, value: string)
    requires pattern != "" && rest != ""
    ensures Swap(rest, pattern, value) ==
            if pattern <= rest then value + Swap(rest[|pattern|..], pattern, value)
            else [rest[0]] + Swap(rest[1..], pattern, value)
  {
  }

  lemma {:induction false} RestIsSwapped(s: string, i: nat, rest: string, pattern: string, value: string)
    requires i <= |s| && rest == s[i..] && pattern != "" && TakenLiterally(value)
    ensures ReplaceFrom(s, i, pattern, value) == Swap(rest, pattern, value)
    decreases |rest|
  {
    if rest != "" {
      SwapUnfolds(rest, pattern, value);
      if pattern <= rest {
        ReplaceHere(s, i, pattern, value);
        RestIsSwapped(s, i + |pattern|, rest[|pattern|..], pattern, value);
      } else {
        ReplaceSkips(s, i, pattern, value);
        RestIsSwapped(s, i + 1, rest[1..], pattern, value);
      }
    }
  }

  lemma ReplaceIsSwap(s: string, pattern: string, value: string)
    requires pattern != "" && TakenLiterally(value)
    ensures ReplaceFrom(s, 0, pattern, value) == Swap(s, pattern, value)
  {
    assert s[0..] == s;
    RestIsSwapped(s, 0, s, pattern, value);
  }

  lemma NoDollarClear(text: string, name: string)
    requires '$' !in text
    ensures Clear(text, name)
  {
    forall p | 0 <= p < |text| ensures !Meets(text, p, name) {
      assert text[p..][0] == text[p] && text[p] in text;
      assert RefText(name)[0] == '$';
    }
  }

  lemma LiteralOkClear(text: string, name: string)
    requires LiteralOk(text)
    ensures Clear(text, name)
  {
    forall p | 0 <= p < |text| ensures !Meets(text, p, name) {
      assert text[p..][0] == text[p];
      assert RefText(name)[0] == '$' && RefText(name)[1] == '{';
      assert text[p] == '$' ==> text[p..][1] == text[p + 1];
    }
  }

  lemma ClearTail(text: string, name: string)
    requires Clear(text, name) && text != ""
    ensures Clear(text[1..], name)
  {
    forall p | 0 <= p < |text[1..]| ensures !Meets(text[1..], p, name) {
      assert text[1..][p..] == text[p + 1..];
      assert !Meets(text, p + 1, name);
    }
  }

  /** A clear text holds no reference, whatever follows it. */
  lemma ClearStart(text: string, rest: string, name: string)
    requires Clear(text, name) && text != ""
    ensures !(RefText(name) <= text + rest)
  {
    assert !Meets(text, 0, name) && text[0..] == text;
    PrefixesMeet(RefText(name), text, rest);
  }

  lemma PrefixesMeet(ref: string, text: string, rest: string)
    ensures ref <= text + rest ==> ref <= text || text <= ref
  {
    var s := text + rest;
    assert s[..|text|] == text;
    if ref <= s && |ref| <= |text| {
      assert text[..|ref|] == s[..|ref|] == ref;
    } else if ref <= s {
      assert ref[..|text|] == s[..|ref|][..|text|] == s[..|text|];
    }
  }

  lemma {:induction false} SwapSkipsLiteral(text: string, rest: string, name: string, value: string)
    requires Clear(text, name)
    ensures Swap(text + rest, RefText(name), value) == text + Swap(rest, RefText(name), value)
    decreases |text|
  {
    var s := text + rest;
    if text == "" {
      assert s == rest;
    } else {
      assert s[1..] == text[1..] + rest;
      ClearTail(text, name);
      SwapSkipsLiteral(text[1..], rest, name, value);
      ClearStart(text, rest, name);
      assert text + Swap(rest, RefText(name), value) == [text[0]] + (text[1..] + Swap(rest, RefText(name), value));
    }
  }

  lemma SameReference(name: string, other: string, rest: string)
    requires IsIdentifier(name) && IsIdentifier(other) && RefText(name) <= RefText(other) + rest
    ensures name == other
  {
    var s := RefText(other) + rest;
    var more := s[|name| + 3..];
    assert s == RefText(name) + more;
    assert s[2..] == other + ['}'] + rest == name + ['}'] + more;
    IndexOfFirst(other, '}', rest);
    IndexOfFirst(name, '}', more);
    assert s[2..][..|name|] == name && s[2..][..|other|] == other;
  }

  lemma SwapAtReference(other: string, rest: string, name: string, value: string)
    requires IsIdentifier(name) && IsIdentifier(other)
    ensures Swap(RefText(other) + rest, RefText(name), value) ==
            (if other == name then value else RefText(other)) + Swap(rest, RefText(name), value)
  {
    var s := RefText(other) + rest;
    if other == name {
      assert s[|RefText(name)|..] == rest;
    } else {
      if RefText(name) <= s {
        SameReference(name, other, rest);
      }
      var tail := "{" + other + "}";
      assert s[1..] == tail + rest;
      NoDollarClear(tail, name);
      SwapSkipsLiteral(tail, rest, name, value);
      assert RefText(other) == "$" + tail;
    }
  }

  /** Every literal of the template is clear of the name. */
  predicate ClearOf(template: seq<Segment>, name: string) {
    forall i | 0 <= i < |template| ::
      match template[i]
      case Literal(text) => Clear(text, name)
      case Ref(other) => IsIdentifier(other)
  }

  lemma OkIsClear(template: seq<Segment>, name: string)
    requires TemplateOk(template)
    ensures ClearOf(template, name)
  {
    forall i | 0 <= i < |template| && template[i].Literal? ensures Clear(template[i].text, name) {
      LiteralOkClear(template[i].text, name);
    }
  }

  lemma {:induction false} SwapFills(template: seq<Segment>, name: string, value: string)
    requires ClearOf(template, name) && IsIdentifier(name)
    ensures Swap(Text(template), RefText(name), value) == Text(Fill(template, name, value))
    decreases |template|
  {
    if template != [] {
      assert ClearOf(template[1..], name) by {
        assert forall i | 0 <= i < |template[1..]| :: template[1..][i] == template[i + 1];
      }
      SwapFills(template[1..], name, value);
      assert Fill(template, name, value)[1..] == Fill(template[1..], name, value);
      match template[0]
      case Literal(text) => SwapSkipsLiteral(text, Text(template[1..]), name, value);
      case Ref(other) => SwapAtReference(other, Text(template[1..]), name, value);
    }
  }

  /** Replacing the references to one name in the text fills that name in the template and nothing else. */
  lemma ReplaceFills(template: seq<Segment>, name: string, value: string)
    requires ClearOf(template, name) && IsIdentifier(name) && TakenLiterally(value)
    ensures ReplaceAll(Text(template), name, value) == Text(Fill(template, name, value))
  {
    ReplaceIsSwap(Text(template), RefText(name), value);
    SwapFills(template, name, value);
  }

  // ---------------------------------------------------------------- the loop substitutes

  lemma {:induction false} SubstituteNothing(template: seq<Segment>)
    ensures Substituted(template, []) == Text(template)
    decreases |template|
  {
    if template != [] {
      SubstituteNothing(template[1..]);
    }
  }

  lemma NotBound(env: Env, name: string)
    requires forall i | 0 <= i < |env| :: env[i].0 != name
    ensures Bound(env, name) == None
    decreases |env|
  {
    if env != [] {
      NotBound(env[1..], name);
    }
  }

  /** Filling the first variable before substituting the others is substituting all of them. */
  lemma {:induction false} FillThenSubstitute(template: seq<Segment>, env: Env)
    requires env != [] && Distinct(env)
    ensures Substituted(Fill(template, env[0].0, env[0].1), env[1..]) == Substituted(template, env)
    decreases |template|
  {
    if template != [] {
      var filled := Fill(template, env[0].0, env[0].1);
      assert filled[1..] == Fill(template[1..], env[0].0, env[0].1);
      FillThenSubstitute(template[1..], env);
      NotBound(env[1..], env[0].0);
    }
  }

  lemma EnvTail(env: Env)
    requires EnvOk(env) && env != []
    ensures EnvOk(env[1..])
  {
    assert forall i | 0 <= i < |env[1..]| :: env[1..][i] == env[i + 1];
  }

  /** The loop over the variables is one simultaneous substitution into every template clear of their keys. */
  lemma {:induction false} ResolvedIsSubstituted(template: seq<Segment>, env: Env)
    requires EnvOk(env) && forall i | 0 <= i < |env| :: ClearOf(template, env[i].0)
    ensures Resolved(Text(template), env) == Substituted(template, env)
    decreases |env|
  {
    if env == [] {
      SubstituteNothing(template);
    } else {
      var filled := Fill(template, env[0].0, env[0].1);
      ReplaceFills(template, env[0].0, env[0].1);
      EnvTail(env);
      forall i | 0 <= i < |env[1..]| ensures ClearOf(filled, env[1..][i].0) {
        assert env[1..][i] == env[i + 1] && ClearOf(template, env[i + 1].0);
        assert Clear(env[0].1, env[i + 1].0);
      }
      ResolvedIsSubstituted(filled, env[1..]);
      FillThenSubstitute(template, env);
    }
  }

  /** In particular into every template whose literals begin no reference. */
  lemma ResolvedIsSimultaneous(template: seq<Segment>, env: Env)
    requires TemplateOk(template) && EnvOk(env)
    ensures Resolved(Text(template), env) == Substituted(template, env)
  {
    forall i | 0 <= i < |env| ensures ClearOf(template, env[i].0) {
      OkIsClear(template, env[i].0);
    }
    ResolvedIsSubstituted(template, env);
  }

  lemma {:induction false} BoundIff(env: Env, name: string, value: string)
    requires Distinct(env)
    ensures Bound(env, name) == Some(value) <==> (name, value) in env
    decreases |env|
  {
    if env != [] {
      BoundIff(env[1..], name, value);
      assert env == [env[0]] + env[1..];
      assert forall i | 0 <= i < |env[1..]| :: env[1..][i] == env[i + 1] && env[1..][i].0 != env[0].0;
    }
  }

  lemma {:induction false} SubstitutedDependsOnBindings(template: seq<Segment>, env: Env, other: Env)
    requires forall name :: Bound(env, name) == Bound(other, name)
    ensures Substituted(template, env) == Substituted(template, other)
    decreases |template|
  {
    if template != [] {
      SubstitutedDependsOnBindings(template[1..], env, other);
    }
  }

  /** The order of the variables does not matter as long as each of the two orders is in order. */
  lemma OrderIndependent(template: seq<Segment>, env: Env, other: Env)
    requires TemplateOk(template) && EnvOk(env) && EnvOk(other)
    requires multiset(env) == multiset(other)
    ensures Resolved(Text(template), env) == Resolved(Text(template), other)
  {
    ResolvedIsSimultaneous(template, env);
    ResolvedIsSimultaneous(template, other);
    forall name ensures Bound(env, name) == Bound(other, name) {
      SameBinding(env, other, name);
    }
    SubstitutedDependsOnBindings(template, env, other);
  }

  lemma SameBinding(env: Env, other: Env, name: string)
    requires Distinct(env) && Distinct(other) && multiset(env) == multiset(other)
    ensures Bound(env, name) == Bound(other, name)
  {
    assert forall e :: e in env <==> e in multiset(env);
    assert forall e :: e in other <==> e in multiset(other);
    if Bound(env, name).Some? {
      BoundIff(env, name, Bound(env, name).value);
      BoundIff(other, name, Bound(env, name).value);
    } else if Bound(other, name).Some? {
      BoundIff(env, name, Bound(other, name).value);
      BoundIff(other, name, Bound(other, name).value);
    }
  }

  // ---------------------------------------------------------------- resolving twice

  /** The template with every known reference filled in. */
  function FillAll(template: seq<Segment>, env: Env): (filled: seq<Segment>)
    ensures |filled| == |template|
    ensures forall i | 0 <= i < |template| :: filled[i] == FillSegment(template[i], env)
  {
    seq(|template|, i requires 0 <= i < |template| => FillSegment(template[i], env))
  }

  function FillSegment(s: Segment, env: Env): Segment {
    if s.Ref? && Bound(env, s.name).Some? then Literal(Bound(env, s.name).value) else s
  }

  lemma {:induction false} FillAllText(template: seq<Segment>, env: Env)
    ensures Text(FillAll(template, env)) == Substituted(template, env)
    ensures Substituted(FillAll(template, env), env) == Substituted(template, env)
    decreases |template|
  {
    if template != [] {
      assert FillAll(template, env)[1..] == FillAll(template[1..], env);
      FillAllText(template[1..], env);
    }
  }

  lemma {:induction false} BoundIsClear(env: Env, name: string, key: string)
    requires forall i | 0 <= i < |env| :: Clear(env[i].1, key)
    ensures Bound(env, name).Some? ==> Clear(Bound(env, name).value, key)
    decreases |env|
  {
    if env != [] {
      assert forall i | 0 <= i < |env[1..]| :: env[1..][i] == env[i + 1];
      BoundIsClear(env[1..], name, key);
    }
  }

  /** When the values are clear of all keys, resolving a resolved command changes nothing. */
  lemma ResolveIdempotent(template: seq<Segment>, env: Env)
    requires TemplateOk(template) && EnvOk(env)
    requires forall i, j | 0 <= i < |env| && 0 <= j < |env| :: Clear(env[i].1, env[j].0)
    ensures Resolved(Resolved(Text(template), env), env) == Resolved(Text(template), env)
  {
    var filled := FillAll(template, env);
    forall j | 0 <= j < |env| ensures ClearOf(filled, env[j].0) {
      OkIsClear(template, env[j].0);
      forall i | 0 <= i < |filled| && filled[i].Literal? ensures Clear(filled[i].text, env[j].0) {
        if template[i].Ref? {
          BoundIsClear(env, template[i].name, env[j].0);
        } else {
          assert Clear(template[i].text, env[j].0);
        }
      }
    }
    FillAllText(template, env);
    ResolvedIsSimultaneous(template, env);
    ResolvedIsSubstituted(filled, env);
  }

  // ---------------------------------------------------------------- exactly when

  /** The characters that a replacement can use up. */
  function Weight(s: string): nat {
    if s == "" then 0 else (if s[0] == '$' || s[0] == '&' then 1 else 0) + Weight(s[1..])
  }

  lemma {:induction false} WeightConcat(a: string, b: string)
    ensures Weight(a + b) == Weight(a) + Weight(b)
    decreases |a|
  {
    if a == "" {
      assert a + b == b;
    } else {
      assert (a + b)[1..] == a[1..] + b;
      WeightConcat(a[1..], b);
    }
  }

  lemma {:induction false} WeightOfName(name: string)
    requires IsIdentifier(name)
    ensures Weight(name) == 0
    decreases |name|
  {
    if name != "" {
      assert forall i | 0 <= i < |name[1..]| :: name[1..][i] == name[i + 1];
      assert name[0] != '$' && name[0] != '&';
      WeightOfName(name[1..]);
    }
  }

  lemma WeightOfRef(name: string)
    requires IsIdentifier(name)
    ensures Weight(RefText(name)) == 1
  {
    WeightOfName(name);
    WeightConcat("${", name);
    WeightConcat("${" + name, "}");
    assert "${"[1..] == "{" && "{"[1..] == "" && "}"[1..] == "";
  }

  lemma WeightTwo(s: string)
    requires |s| >= 2
    ensures Weight(s) == Weight(s[..1]) + Weight(s[1..2]) + Weight(s[2..])
    ensures Weight(s[..1]) == (if s[0] == '$' || s[0] == '&' then 1 else 0)
    ensures Weight(s[1..2]) == (if s[1] == '$' || s[1] == '&' then 1 else 0)
  {
    assert s == s[..2] + s[2..] && s[..2] == s[..1] + s[1..2];
    WeightConcat(s[..2], s[2..]);
    WeightConcat(s[..1], s[1..2]);
    assert s[..1][1..] == "" && s[1..2][1..] == "";
  }

  /** A value that is not taken literally comes out lighter, where the text around the match weighs nothing. */
  lemma {:induction false} ExpandLighter(value: string, matched: string, around: string)
    requires Weight(matched) == 1 && Weight(around) == 0
    ensures Weight(Expand(value, matched, around, around)) <= Weight(value)
    ensures !TakenLiterally(value) ==> Weight(Expand(value, matched, around, around)) < Weight(value)
    decreases |value|
  {
    if value != "" {
      var special := value[0] == '$' && |value| > 1 && value[1] in "$&`'";
      if special {
        var first := if value[1] == '$' then "$" else if value[1] == '&' then matched else around;
        var rest := Expand(value[2..], matched, around, around);
        assert Expand(value, matched, around, around) == first + rest;
        assert "$"[1..] == "";
        WeightConcat(first, rest);
        WeightTwo(value);
        ExpandLighter(value[2..], matched, around);
      } else {
        var rest := Expand(value[1..], matched, around, around);
        assert Expand(value, matched, around, around) == [value[0]] + rest;
        WeightConcat([value[0]], rest);
        WeightConcat([value[0]], value[1..]);
        assert [value[0]] + value[1..] == value;
        ExpandLighter(value[1..], matched, around);
        TakenTail(value);
      }
    }
  }

  lemma TakenTail(value: string)
    requires value != "" && !(value[0] == '$' && |value| > 1 && value[1] in "$&`'")
    ensures TakenLiterally(value[1..]) ==> TakenLiterally(value)
  {
    if TakenLiterally(value[1..]) {
      forall i | 0 <= i < |value| - 1 && value[i] == '$' ensures value[i + 1] !in "$&`'" {
        if i > 0 {
          assert value[1..][i - 1] == '$' && value[1..][i] == value[i + 1];
        }
      }
    }
  }

  /** One reference between two spaces. */
  function Alone(name: string): seq<Segment> {
    [Literal(" "), Ref(name), Literal(" ")]
  }

  lemma TextTwo(a: Segment, b: Segment)
    ensures Text([a, b]) == SegmentText(a) + SegmentText(b)
  {
    assert [a, b][1..] == [b] && [b][1..] == [] && SegmentText(b) + "" == SegmentText(b);
    assert Text([b]) == SegmentText(b) + Text([b][1..]);
  }

  lemma TextThree(a: Segment, b: Segment, c: Segment)
    ensures Text([a, b, c]) == SegmentText(a) + SegmentText(b) + SegmentText(c)
  {
    TextTwo(b, c);
    assert [a, b, c][1..] == [b, c];
    ConcatAssociative(SegmentText(a), SegmentText(b), SegmentText(c));
  }

  lemma AloneText(name: string)
    ensures Text(Alone(name)) == " " + RefText(name) + " "
    ensures IsIdentifier(name) ==> TemplateOk(Alone(name))
  {
    TextThree(Literal(" "), Ref(name), Literal(" "));
  }

  lemma AloneReplaced(name: string, value: string)
    ensures ReplaceAll(Text(Alone(name)), name, value) == " " + Expand(value, RefText(name), " ", " ") + " "
  {
    AloneText(name);
    var ref := RefText(name);
    var s := " " + ref + " ";
    var n := |ref|;
    assert !(ref <= s) by {
      assert s[0] == ' ' && ref[0] == '$';
    }
    assert s[1..] == ref + " " && s[..1] == " " && s[1 + n..] == " ";
    assert s[0..] == s;
    assert ReplaceFrom(s, n + 2, ref, value) == "";
    assert ReplaceFrom(s, 1 + n, ref, value) == " " by {
      assert !(ref <= s[1 + n..]);
      assert s[1 + n] == ' ';
    }
    assert ReplaceFrom(s, 1, ref, value) == Expand(value, ref, " ", " ") + " ";
    assert [s[0]] == " ";
  }

  lemma AloneFilled(name: string, value: string)
    ensures Text(Fill(Alone(name), name, value)) == " " + value + " "
  {
    var t := Fill(Alone(name), name, value);
    assert t == [Literal(" "), Literal(value), Literal(" ")];
    TextThree(Literal(" "), Literal(value), Literal(" "));
  }

  lemma AloneLighter(name: string, value: string)
    requires IsIdentifier(name) && !TakenLiterally(value)
    ensures Weight(ReplaceAll(Text(Alone(name)), name, value)) < Weight(" " + value + " ")
  {
    AloneReplaced(name, value);
    WeightOfRef(name);
    var e := Expand(value, RefText(name), " ", " ");
    assert Weight(" ") == 0 by { assert " "[1..] == ""; }
    ExpandLighter(value, RefText(name), " ");
    WeightConcat(" ", e);
    WeightConcat(" " + e, " ");
    WeightConcat(" ", value);
    WeightConcat(" " + value, " ");
  }

  /**
    One replacement fills a variable's references in with its value, in every template, if and
    only if no dollar sign of the value is followed by one of the four pattern characters.
   */
  lemma TakenLiterallyIff(name: string, value: string)
    requires IsIdentifier(name)
    ensures (forall template | TemplateOk(template) ::
               ReplaceAll(Text(template), name, value) == Text(Fill(template, name, value))) <==>
            TakenLiterally(value)
  {
    if TakenLiterally(value) {
      forall template | TemplateOk(template)
        ensures ReplaceAll(Text(template), name, value) == Text(Fill(template, name, value))
      {
        OkIsClear(template, name);
        ReplaceFills(template, name, value);
      }
    } else {
      AloneText(name);
      AloneFilled(name, value);
      AloneLighter(name, value);
    }
  }

  /** Variables with the given keys, all blank. */
  function Blanks(keys: seq<string>): (env: Env)
    ensures |env| == |keys| && forall i | 0 <= i < |keys| :: env[i] == (keys[i], " ")
  {
    seq(|keys|, i requires 0 <= i < |keys| => (keys[i], " "))
  }

  predicate KeysOk(keys: seq<string>) {
    && (forall i | 0 <= i < |keys| :: IsIdentifier(keys[i]))
    && forall i, j | 0 <= i < j < |keys| :: keys[i] != keys[j]
  }

  lemma BlanksOk(keys: seq<string>)
    requires KeysOk(keys)
    ensures EnvOk(Blanks(keys))
  {
    forall name ensures Clear(" ", name) {
      NoDollarClear(" ", name);
    }
  }

  lemma {:induction false} SwapLighter(s: string, name: string)
    requires IsIdentifier(name)
    ensures Weight(Swap(s, RefText(name), " ")) <= Weight(s)
    ensures Swap(s, RefText(name), " ") == s || Weight(Swap(s, RefText(name), " ")) < Weight(s)
    ensures forall p | 0 <= p <= |s| && RefText(name) <= s[p..] :: Weight(Swap(s, RefText(name), " ")) < Weight(s)
    decreases |s|
  {
    var ref := RefText(name);
    if ref <= s {
      WeightOfRef(name);
      assert s == ref + s[|ref|..];
      WeightConcat(ref, s[|ref|..]);
      WeightConcat(" ", Swap(s[|ref|..], ref, " "));
      assert " "[1..] == "";
      SwapLighter(s[|ref|..], name);
    } else if s != "" {
      SwapLighter(s[1..], name);
      WeightConcat([s[0]], Swap(s[1..], ref, " "));
      WeightConcat([s[0]], s[1..]);
      assert [s[0]] + s[1..] == s;
      forall p | 0 <= p <= |s| && ref <= s[p..] ensures Weight(Swap(s, ref, " ")) < Weight(s) {
        assert s[0..] == s;
        assert s[p..] == s[1..][p - 1..];
      }
    }
  }

  lemma BlankReplaced(s: string, name: string)
    ensures ReplaceAll(s, name, " ") == Swap(s, RefText(name), " ")
  {
    ReplaceIsSwap(s, RefText(name), " ");
  }

  /** Blank variables never make a text heavier, and make it lighter when it refers to one of them. */
  lemma {:induction false} BlanksLighter(s: string, keys: seq<string>)
    requires KeysOk(keys)
    ensures Weight(Resolved(s, Blanks(keys))) <= Weight(s)
    ensures forall j, p | 0 <= j < |keys| && 0 <= p <= |s| && RefText(keys[j]) <= s[p..] ::
              Weight(Resolved(s, Blanks(keys))) < Weight(s)
    decreases |keys|
  {
    if keys != [] {
      var next := ReplaceAll(s, keys[0], " ");
      assert Blanks(keys)[1..] == Blanks(keys[1..]);
      BlankReplaced(s, keys[0]);
      SwapLighter(s, keys[0]);
      BlanksLighter(next, keys[1..]);
      forall j, p | 0 <= j < |keys| && 0 <= p <= |s| && RefText(keys[j]) <= s[p..]
        ensures Weight(Resolved(s, Blanks(keys))) < Weight(s)
      {
        if j > 0 && next == s {
          assert keys[1..][j - 1] == keys[j];
        }
      }
    }
  }

  /** The value is taken literally and clear of every later key. */
  predicate SafeBefore(value: string, later: seq<string>) {
    TakenLiterally(value) && forall j | 0 <= j < |later| :: Clear(value, later[j])
  }

  /** The loop starting with this variable is the simultaneous substitution into this template. */
  predicate Simultaneous(template: seq<Segment>, name: string, value: string, rest: Env) {
    Resolved(Text(template), [(name, value)] + rest) == Substituted(template, [(name, value)] + rest)
  }

  lemma {:induction false} PatternIsNotSimultaneous(name: string, value: string, later: seq<string>)
    requires KeysOk([name] + later) && !TakenLiterally(value)
    ensures TemplateOk(Alone(name)) && !Simultaneous(Alone(name), name, value, Blanks(later))
  {
    var t, env := Alone(name), [(name, value)] + Blanks(later);
    KeysTail(name, later);
    AloneText(name);
    AloneLighter(name, value);
    BlanksLighter(ReplaceAll(Text(t), name, value), later);
    assert env[1..] == Blanks(later);
    assert t[1..] == [Ref(name), Literal(" ")] && t[1..][1..] == [Literal(" ")] && t[1..][1..][1..] == [];
    assert Substituted(t[1..][1..], env) == " ";
    assert Substituted(t[1..], env) == value + " ";
    assert Substituted(t, env) == " " + (value + " ") == " " + value + " ";
  }

  lemma KeysTail(name: string, later: seq<string>)
    requires KeysOk([name] + later)
    ensures IsIdentifier(name) && KeysOk(later)
  {
    var keys := [name] + later;
    assert keys[0] == name && forall i | 0 <= i < |later| :: keys[i + 1] == later[i];
  }

  /** What completes a reference that the value begins at position p. */
  function Completion(value: string, p: nat, name: string): string
    requires p < |value|
  {
    if |RefText(name)| <= |value| - p then "" else RefText(name)[|value| - p..]
  }

  lemma CompletionCompletes(value: string, p: nat, name: string)
    requires p < |value| && Meets(value, p, name) && IsIdentifier(name)
    ensures RefText(name) <= (value + Completion(value, p, name))[p..]
    ensures LiteralOk(Completion(value, p, name))
  {
    var tail := Completion(value, p, name);
    assert (value + tail)[p..] == value[p..] + tail;
    if tail != "" {
      assert value[p..] + tail == RefText(name);
      assert forall i | 0 <= i < |tail| :: tail[i] == RefText(name)[i + (|value| - p)];
    }
  }

  lemma {:induction false} OverlapIsNotSimultaneous(name: string, value: string, later: seq<string>, j: nat, p: nat)
    requires KeysOk([name] + later) && TakenLiterally(value)
    requires j < |later| && p < |value| && Meets(value, p, later[j])
    ensures var t := [Ref(name), Literal(Completion(value, p, later[j]))];
            TemplateOk(t) && !Simultaneous(t, name, value, Blanks(later))
  {
    KeysTail(name, later);
    var tail := Completion(value, p, later[j]);
    var t, env := [Ref(name), Literal(tail)], [(name, value)] + Blanks(later);
    CompletionCompletes(value, p, later[j]);
    OkIsClear(t, name);
    ReplaceFills(t, name, value);
    assert Fill(t, name, value) == [Literal(value), Literal(tail)];
    TextTwo(Literal(value), Literal(tail));
    SubstitutedTwo(t, name, value, tail, env);
    assert env[1..] == Blanks(later);
    LighterAt(value + tail, later, j, p);
  }

  lemma LighterAt(s: string, keys: seq<string>, j: nat, p: nat)
    requires KeysOk(keys) && j < |keys| && p <= |s| && RefText(keys[j]) <= s[p..]
    ensures Weight(Resolved(s, Blanks(keys))) < Weight(s)
  {
    BlanksLighter(s, keys);
  }

  lemma {:induction false} SubstitutedTwo(t: seq<Segment>, name: string, value: string, tail: string, env: Env)
    requires |t| == 2 && t[0] == Ref(name) && t[1] == Literal(tail)
    requires env != [] && env[0] == (name, value)
    ensures Substituted(t, env) == value + tail
  {
    assert t[1..][1..] == [] && tail + "" == tail;
    assert Substituted(t[1..], env) == tail;
  }

  lemma {:induction false} SafeIsSimultaneous(name: string, value: string, rest: Env, template: seq<Segment>)
    requires EnvOk(rest) && TemplateOk(template) && KeysOk([name] + Keys(rest)) && SafeBefore(value, Keys(rest))
    ensures Simultaneous(template, name, value, rest)
  {
    var env := [(name, value)] + rest;
    KeysTail(name, Keys(rest));
    assert forall i | 0 < i < |env| :: env[i] == rest[i - 1] && env[i].0 == Keys(rest)[i - 1] == ([name] + Keys(rest))[i];
    assert env[0].0 == ([name] + Keys(rest))[0];
    ResolvedIsSimultaneous(template, env);
  }

  function Keys(env: Env): (keys: seq<string>)
    ensures |keys| == |env| && forall i | 0 <= i < |env| :: keys[i] == env[i].0
  {
    seq(|env|, i requires 0 <= i < |env| => env[i].0)
  }

  /**
    The condition on a value against the keys of later variables is exact: the loop is the
    simultaneous substitution for every template and all later variables with those keys (in
    order themselves) if and only if the value is taken literally and clear of each of the keys.
   */
  lemma {:induction false} SimultaneousIff(name: string, value: string, later: seq<string>)
    requires KeysOk([name] + later)
    ensures SafeBefore(value, later) <==>
            forall rest: Env, template: seq<Segment> | Keys(rest) == later && EnvOk(rest) && TemplateOk(template) ::
              Simultaneous(template, name, value, rest)
  {
    KeysTail(name, later);
    if SafeBefore(value, later) {
      forall rest: Env, template: seq<Segment> | Keys(rest) == later && EnvOk(rest) && TemplateOk(template)
        ensures Simultaneous(template, name, value, rest)
      {
        SafeIsSimultaneous(name, value, rest, template);
      }
    } else {
      BlanksOk(later);
      assert Keys(Blanks(later)) == later;
      if !TakenLiterally(value) {
        PatternIsNotSimultaneous(name, value, later);
      } else {
        var j :| 0 <= j < |later| && !Clear(value, later[j]);
        var p :| 0 <= p < |value| && Meets(value, p, later[j]);
        OverlapIsNotSimultaneous(name, value, later, j, p);
      }
    }
  }

  // ---------------------------------------------------------------- two variables

  lemma WholeReplaced(name: string, value: string)
    ensures ReplaceAll(RefText(name), name, value) == Expand(value, RefText(name), "", "")
  {
    var s := RefText(name);
    assert s[0..] == s && s[|s|..] == "" && s[..0] == "";
    assert ReplaceFrom(s, 0, s, value) == Expand(value, s, "", "") + ReplaceFrom(s, |s|, s, value);
    assert Expand(value, s, "", "") + "" == Expand(value, s, "", "");
  }

  lemma OneVariable(startup: string, name: string, value: string)
    ensures Resolved(startup, [(name, value)]) == ReplaceAll(startup, name, value)
  {
    assert [(name, value)][1..] == [];
  }

  lemma TwoVariables(startup: string, a: (string, string), b: (string, string))
    ensures Resolved(startup, [a, b]) == ReplaceAll(ReplaceAll(startup, a.0, a.1), b.0, b.1)
  {
    assert [a, b][1..] == [b];
    OneVariable(ReplaceAll(startup, a.0, a.1), b.0, b.1);
  }

  lemma RefTakenLiterally(name: string)
    requires IsIdentifier(name)
    ensures TakenLiterally(RefText(name))
  {
    var s := RefText(name);
    assert s[0] == '$' && s[1] == '{' && s[|s| - 1] == '}';
    assert forall i | 0 <= i < |name| :: s[i + 2] == name[i];
  }

  /** For any two variables: a value that refers to the other variable is resolved only if that one comes later. */
  lemma NestedValueDependsOnOrder(a: string, b: string, value: string)
    requires IsIdentifier(a) && IsIdentifier(b) && a != b && TakenLiterally(value)
    ensures Resolved(RefText(a), [(a, RefText(b)), (b, value)]) == value
    ensures Resolved(RefText(a), [(b, value), (a, RefText(b))]) == RefText(b)
  {
    RefTakenLiterally(b);
    LiteralExpands(RefText(b), RefText(a), "", "");
    LiteralExpands(value, RefText(b), "", "");
    WholeReplaced(a, RefText(b));
    WholeReplaced(b, value);
    TwoVariables(RefText(a), (a, RefText(b)), (b, value));
    assert ReplaceAll(RefText(a), b, value) == RefText(a) by {
      var template := [Ref(a)];
      ReplaceFills(template, b, value);
      assert Fill(template, b, value) == template;
      assert template[1..] == [] && Text(template) == RefText(a) + "" == RefText(a);
    }
    TwoVariables(RefText(a), (b, value), (a, RefText(b)));
  }

  /** For any variable: a value that stands for the match puts the reference back. */
  lemma AmpersandRestoresReference(name: string)
    ensures Resolved(RefText(name), [(name, "$&")]) == RefText(name)
  {
    WholeReplaced(name, "$&");
    OneVariable(RefText(name), name, "$&");
    assert "$&"[2..] == "" && RefText(name) + "" == RefText(name);
  }

  // ---------------------------------------------------------------- what each pattern stands for

  lemma PlainStart(s: string, i: nat, plain: string, pattern: string)
    requires i + |plain| <= |s| && s[i..i + |plain|] == plain && plain != ""
    requires pattern != "" && pattern[0] == '$' && '$' !in plain
    ensures s[i] == plain[0] && !(pattern <= s[i..])
    ensures s[i + 1..i + 1 + |plain[1..]|] == plain[1..] && '$' !in plain[1..]
  {
    assert plain[0] == s[i] == s[i..][0] && plain[0] in plain;
  }

  /** Text without a dollar sign is copied. */
  lemma {:induction false} PlainCopied(s: string, i: nat, plain: string, pattern: string, value: string, tail: string)
    requires i + |plain| <= |s| && s[i..i + |plain|] == plain
    requires pattern != "" && pattern[0] == '$' && '$' !in plain
    requires tail == ReplaceFrom(s, i + |plain|, pattern, value)
    ensures ReplaceFrom(s, i, pattern, value) == plain + tail
    decreases |plain|
  {
    if plain == "" {
      assert plain + tail == tail;
    } else {
      PlainStart(s, i, plain, pattern);
      ReplaceSkips(s, i, pattern, value);
      assert i + 1 + |plain[1..]| == i + |plain|;
      PlainCopied(s, i + 1, plain[1..], pattern, value, tail);
      HeadAndTail(plain, tail);
    }
  }

  lemma HeadAndTail(text: string, tail: string)
    requires text != ""
    ensures [text[0]] + (text[1..] + tail) == text + tail
  {
  }

  lemma MatchExpanded(s: string, i: nat, pattern: string, value: string, before: string, after: string)
    requires pattern != "" && i < |s| && i + |pattern| <= |s| && pattern <= s[i..]
    requires s[..i] == before && s[i + |pattern|..] == after
    ensures ReplaceFrom(s, i, pattern, value) ==
            Expand(value, pattern, before, after) + ReplaceFrom(s, i + |pattern|, pattern, value)
  {
  }

  lemma Pieces(s: string, before: string, ref: string, after: string)
    requires s == before + ref + after
    ensures var k := |before| + |ref|;
            && k <= |s| && |s| == k + |after|
            && s[|before|..] == ref + after && ref <= s[|before|..] && s[..|before|] == before && s[0..|before|] == before
            && s[k..] == after && s[k..k + |after|] == after
  {
  }

  lemma MatchReplaced(s: string, before: string, ref: string, after: string, value: string)
    requires s == before + ref + after && '$' !in before && '$' !in after && ref != "" && ref[0] == '$'
    ensures ReplaceFrom(s, 0, ref, value) == before + (Expand(value, ref, before, after) + after)
  {
    var k := |before| + |ref|;
    Pieces(s, before, ref, after);
    PlainCopied(s, k, after, ref, value, "");
    MatchExpanded(s, |before|, ref, value, before, after);
    PlainCopied(s, 0, before, ref, value, Expand(value, ref, before, after) + after);
  }

  /** In a text with one reference between dollar-free ends, the ends are what comes before and after the match. */
  lemma OneReferenceReplaced(before: string, name: string, after: string, value: string)
    requires '$' !in before && '$' !in after
    ensures ReplaceAll(before + RefText(name) + after, name, value) ==
            before + Expand(value, RefText(name), before, after) + after
  {
    MatchReplaced(before + RefText(name) + after, before, RefText(name), after, value);
    ConcatAssociative(before, Expand(value, RefText(name), before, after), after);
  }

  lemma PairExpands(mark: char, matched: string, before: string, after: string)
    requires mark in {'$', '&', '`', '\''}
    ensures Expand("$" + [mark], matched, before, after) ==
            if mark == '$' then "$" else if mark == '&' then matched else if mark == '`' then before else after
  {
    var v := "$" + [mark];
    assert v[2..] == "" && Expand("", matched, before, after) == "";
  }

  /**
    A doubled dollar sign is one, an ampersand after a dollar sign is the reference itself, a
    backquote there is the text before the reference, and an apostrophe the text after it.
   */
  lemma PatternsStandFor(before: string, name: string, after: string)
    requires '$' !in before && '$' !in after
    ensures ReplaceAll(before + RefText(name) + after, name, "$$") == before + "$" + after
    ensures ReplaceAll(before + RefText(name) + after, name, "$&") == before + RefText(name) + after
    ensures ReplaceAll(before + RefText(name) + after, name, "$`") == before + before + after
    ensures ReplaceAll(before + RefText(name) + after, name, "$'") == before + after + after
  {
    forall mark: char | mark in {'$', '&', '`', '\''}
      ensures ReplaceAll(before + RefText(name) + after, name, "$" + [mark]) ==
              before + (if mark == '$' then "$" else if mark == '&' then RefText(name) else if mark == '`' then before else after) + after
    {
      OneReferenceReplaced(before, name, after, "$" + [mark]);
      PairExpands(mark, RefText(name), before, after);
    }
    assert "$" + ['$'] == "$$" && "$" + ['&'] == "$&" && "$" + ['`'] == "$`" && "$" + ['\''] == "$'";
  }
}
