/** Deciding a workflow job's `if:` by turning it into a Python expression. */
module JobConditions {
  import opened Options
  import opened Text
  import P = PythonBool

  /** The two comparisons the check understands. */
  datatype Test = OutputIsTrue(name: string) | EventIs(name: string)

  /** What a condition comes to. `Malformed`: what is left is laid out as an expression and is none of
      those modelled. */
  datatype Verdict = Decided(value: bool) | Unevaluable | Malformed

  datatype Substituted = Substituted(skeleton: string, values: seq<bool>) | NoEvent

  const OUTPUTS := "needs.changes.outputs."
  const EVENT_NAME := "github.event_name"
  const TRUE_LITERAL := "'true'"

  predicate IsOutputChar(c: char) {
    'A' <= c <= 'Z' || 'a' <= c <= 'z' || '0' <= c <= '9' || c == '_' || c == '-'
  }

  predicate IsEventChar(c: char) {
    'a' <= c <= 'z' || c == '_'
  }

  function SkipSpace(s: string): (r: string)
    ensures |r| <= |s|
  {
    if s != [] && IsSpace(s[0]) then SkipSpace(s[1..]) else s
  }

  /** What follows `\s*==\s*`. */
  function SkipEquals(s: string): (r: Option<string>)
    ensures r.Some? ==> |r.value| < |s|
  {
    var rest := StripPrefix(SkipSpace(s), "==");
    if rest.None? then None else Some(SkipSpace(rest.value))
  }

  function MatchOutput(s: string): (r: Option<(Test, string)>)
    ensures r.Some? ==> |r.value.1| < |s|
  {
    match StripPrefix(s, OUTPUTS)
    case None => None
    case Some(a) =>
      match TakeRun(a, IsOutputChar)
      case None => None
      case Some((name, b)) =>
        match SkipEquals(b)
        case None => None
        case Some(c) =>
          match StripPrefix(c, TRUE_LITERAL)
          case None => None
          case Some(rest) => Some((OutputIsTrue(name), rest))
  }

  function MatchEvent(s: string): (r: Option<(Test, string)>)
    ensures r.Some? ==> |r.value.1| < |s|
  {
    match StripPrefix(s, EVENT_NAME)
    case None => None
    case Some(a) =>
      match SkipEquals(a)
      case None => None
      case Some(b) =>
        match StripPrefix(b, "'")
        case None => None
        case Some(c) =>
          match TakeRun(c, IsEventChar)
          case None => None
          case Some((name, d)) =>
            match StripPrefix(d, "'")
            case None => None
            case Some(rest) => Some((EventIs(name), rest))
  }

  /** The comparison `s` begins with, and what follows it. */
  function MatchTest(s: string): (r: Option<(Test, string)>)
    ensures r.Some? ==> |r.value.1| < |s|
  {
    var output := MatchOutput(s);
    if output.Some? then output else MatchEvent(s)
  }

  /** A comparison's value; none for an event when the run did not say what it was. */
  function Holds(test: Test, outputs: map<string, string>, event: Option<string>): Option<bool> {
    match test
    case OutputIsTrue(name) => Some(name in outputs && outputs[name] == "true")
    case EventIs(name) => if event.None? then None else Some(event.value == name)
  }

  /** One step: a comparison becomes a mark and a value, anything else stays. */
  function Replaced(found: Option<(Test, string)>, c: char, rest: Substituted, outputs: map<string, string>,
                    event: Option<string>): Substituted
  {
    if found.None? then Prepend(c, [], rest)
    else
      var v := Holds(found.value.0, outputs, event);
      if v.None? then NoEvent else Prepend('@', [v.value], rest)
  }

  function Prepend(c: char, values: seq<bool>, rest: Substituted): Substituted {
    if rest.NoEvent? then NoEvent else Substituted([c] + rest.skeleton, values + rest.values)
  }

  /** What is left of the text after one step. */
  function Rest(s: string): (r: string)
    requires s != []
    ensures |r| < |s|
  {
    if MatchTest(s).Some? then MatchTest(s).value.1 else s[1..]
  }

  /** `combined.sub(dispatch, s)`, left to right. */
  function Substitute(s: string, outputs: map<string, string>, event: Option<string>): Substituted
    decreases |s|
  {
    if s == [] then Substituted([], [])
    else Replaced(MatchTest(s), s[0], Substitute(Rest(s), outputs, event), outputs, event)
  }

  function WithoutMarks(s: string): string {
    if s == [] then [] else (if s[0] == '@' then [] else [s[0]]) + WithoutMarks(s[1..])
  }

  /** The skeleton is nothing but the operators allowed. */
  predicate Structure(s: string) {
    if s == [] then true
    else if IsSpace(s[0]) || s[0] == '(' || s[0] == ')' then Structure(s[1..])
    else |s| >= 2 && s[0] == s[1] && (s[0] == '|' || s[0] == '&') && Structure(s[2..])
  }

  /** `s.replace(cc, text)`. */
  function ReplacePairs(s: string, c: char, text: string): string
    decreases |s|
  {
    if s == [] then []
    else if |s| >= 2 && s[0] == c && s[1] == c then text + ReplacePairs(s[2..], c, text)
    else [s[0]] + ReplacePairs(s[1..], c, text)
  }

  /** `s.replace("@", text, 1)`. */
  function ReplaceMark(s: string, text: string): string {
    if s == [] then [] else if s[0] == '@' then text + s[1..] else [s[0]] + ReplaceMark(s[1..], text)
  }

  function ReplaceMarks(s: string, values: seq<bool>): string
    decreases |values|
  {
    if values == [] then s else ReplaceMarks(ReplaceMark(s, BoolText(values[0])), values[1..])
  }

  function BoolText(b: bool): string {
    if b then "True" else "False"
  }

  function AsPython(skeleton: string): string {
    ReplacePairs(ReplacePairs(skeleton, '|', " or "), '&', " and ")
  }

  function Decide(condition: string, outputs: map<string, string>, event: Option<string>): Verdict {
    match Substitute(condition, outputs, event)
    case NoEvent => Unevaluable
    case Substituted(skeleton, values) =>
      if !Structure(WithoutMarks(skeleton)) || values == [] then Unevaluable
      else
        VerdictOf(P.Eval(ReplaceMarks(AsPython(skeleton), values)))
  }

  /** A syntax error is caught. */
  function VerdictOf(answer: P.Answer): Verdict {
    match answer
    case Answer(v) => Decided(v)
    case Refused => Unevaluable
    case Unclear => Malformed
  }

  function After(skeleton: string, values: seq<bool>, rest: Substituted): Substituted {
    if rest.NoEvent? then NoEvent else Substituted(skeleton + rest.skeleton, values + rest.values)
  }

  lemma AfterPrepend(skeleton: string, values: seq<bool>, c: char, more: seq<bool>, rest: Substituted)
    ensures After(skeleton, values, Prepend(c, more, rest)) == After(skeleton + [c], values + more, rest)
  {
    if rest.Substituted? {
      assert skeleton + ([c] + rest.skeleton) == (skeleton + [c]) + rest.skeleton;
      assert values + (more + rest.values) == (values + more) + rest.values;
    }
  }

  /** What comes of the text, behind what is already done. */
  function Outcome(skeleton: string, values: seq<bool>, text: string, outputs: map<string, string>, event: Option<string>): Substituted {
    After(skeleton, values, Substitute(text, outputs, event))
  }

  lemma OutcomeStep(skeleton: string, values: seq<bool>, text: string, outputs: map<string, string>, event: Option<string>)
    requires text != []
    ensures var found := MatchTest(text);
            if found.None? then
              Outcome(skeleton, values, text, outputs, event) == Outcome(skeleton + [text[0]], values, Rest(text), outputs, event)
            else
              var v := Holds(found.value.0, outputs, event);
              Outcome(skeleton, values, text, outputs, event) ==
              if v.None? then NoEvent else Outcome(skeleton + ['@'], values + [v.value], Rest(text), outputs, event)
  {
    var found := MatchTest(text);
    var rest := Substitute(Rest(text), outputs, event);
    if found.None? {
      AfterPrepend(skeleton, values, text[0], [], rest);
      assert values + [] == values;
    } else if Holds(found.value.0, outputs, event).Some? {
      AfterPrepend(skeleton, values, '@', [Holds(found.value.0, outputs, event).value], rest);
    }
  }

  lemma OutcomeEnds(s: string, skeleton: string, values: seq<bool>, outputs: map<string, string>, event: Option<string>)
    ensures Outcome("", [], s, outputs, event) == Substitute(s, outputs, event)
    ensures Outcome(skeleton, values, "", outputs, event) == Substituted(skeleton, values)
  {
    var all := Substitute(s, outputs, event);
    if all.Substituted? {
      assert "" + all.skeleton == all.skeleton && [] + all.values == all.values;
    }
    assert skeleton + "" == skeleton && values + [] == values;
  }

  method SubstituteTests(s: string, outputs: map<string, string>, event: Option<string>) returns (r: Substituted)
    ensures r == Substitute(s, outputs, event)
  {
    var skeleton, values, text := "", [], s;
    OutcomeEnds(s, skeleton, values, outputs, event);
    while text != []
      invariant Outcome("", [], s, outputs, event) == Outcome(skeleton, values, text, outputs, event)
      decreases |text|
    {
      OutcomeStep(skeleton, values, text, outputs, event);
      var found := MatchTest(text);
      if found.None? {
        skeleton := skeleton + [text[0]];
      } else {
        var v := Holds(found.value.0, outputs, event);
        if v.None? {
          return NoEvent;
        }
        values := values + [v.value];
        skeleton := skeleton + ['@'];
      }
      text := Rest(text);
    }
    OutcomeEnds(s, skeleton, values, outputs, event);
    r := Substituted(skeleton, values);
  }

  method Evaluate(condition: string, outputs: map<string, string>, event: Option<string>) returns (r: Verdict)
    ensures r == Decide(condition, outputs, event)
  {
    var substituted := SubstituteTests(condition, outputs, event);
    if substituted.NoEvent? {
      return Unevaluable;
    }
    var skeleton, values := substituted.skeleton, substituted.values;
    if !Structure(WithoutMarks(skeleton)) {
      return Unevaluable;
    }
    if values == [] {
      return Unevaluable;
    }
    var expression := AsPython(skeleton);
    for i := 0 to |values|
      invariant ReplaceMarks(AsPython(skeleton), values) == ReplaceMarks(expression, values[i..])
    {
      assert values[i..][1..] == values[i + 1..];
      expression := ReplaceMark(expression, BoolText(values[i]));
    }
    r := VerdictOf(P.Eval(expression));
  }
}
