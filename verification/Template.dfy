/**
 * Prompt templates: `{name}` stands for a variable, `{{` and `}}` for literal braces. The two
 * scanners of the node are proved against one grammar of tokens.
 */
module Template {
  import opened Optional

  datatype Token = Literal(c: char) | Variable(key: string)

  /** Position of the first `c` in `s` at or after `from`. */
  function Find(s: string, c: char, from: nat): (r: Option<nat>)
    ensures match r
            case Some(k) => from <= k < |s| && s[k] == c && forall j :: from <= j < k ==> s[j] != c
            case None => forall j :: from <= j < |s| ==> s[j] != c
    decreases |s| - from
  {
    if from >= |s| then None else if s[from] == c then Some(from) else Find(s, c, from + 1)
  }

  function Cons<T>(x: T, xs: Option<seq<T>>): Option<seq<T>> {
    if xs.Some? then Some([x] + xs.value) else None
  }

  /** The tokens of a well-formed template; `None` where the scanners throw. */
  function Tokens(t: string): Option<seq<Token>> {
    if t == "" then Some([])
    else if t[0] == '{' then
      if |t| > 1 && t[1] == '{' then Cons(Literal('{'), Tokens(t[2..]))
      else
        match Find(t, '}', 1)
        case None => None
        case Some(close) => Cons(Variable(t[1..close]), Tokens(t[close + 1..]))
    else if t[0] == '}' then
      if |t| > 1 && t[1] == '}' then Cons(Literal('}'), Tokens(t[2..])) else None
    else Cons(Literal(t[0]), Tokens(t[1..]))
  }

  // ---- Printing, the inverse of tokenising ---------------------------------------------

  function PrintToken(k: Token): string {
    match k
    case Literal(c) => if c == '{' || c == '}' then [c, c] else [c]
    case Variable(key) => ['{'] + key + ['}']
  }

  function Print(ks: seq<Token>): string {
    if ks == [] then "" else PrintToken(ks[0]) + Print(ks[1..])
  }

  // The keys a template can mention: no closing brace, and no opening brace in front.
  predicate Printable(k: Token) {
    k.Variable? ==> '}' !in k.key && (k.key != "" ==> k.key[0] != '{')
  }

  lemma TokensOfPrinted(k: Token, rest: string)
    requires Printable(k)
    ensures Tokens(PrintToken(k) + rest) == Cons(k, Tokens(rest))
  {
    var t := PrintToken(k) + rest;
    match k {
      case Literal(c) =>
        if c == '{' || c == '}' { assert t[2..] == rest; } else { assert t[1..] == rest; }
      case Variable(key) =>
        var close := |key| + 1;
        assert t[close] == '}' && forall j :: 1 <= j < close ==> t[j] == key[j - 1];
        assert t[1] != '{';
        assert Find(t, '}', 1) == Some(close);
        assert t[1..close] == key && t[close + 1..] == rest;
    }
  }

  // A well-formed template starts with its first token.
  lemma FirstToken(t: string) returns (k: Token, rest: string)
    requires t != "" && Tokens(t).Some?
    ensures |rest| < |t| && t == PrintToken(k) + rest && Printable(k)
    ensures Tokens(rest).Some? && Tokens(t).value == [k] + Tokens(rest).value
  {
    k := Tokens(t).value[0];
    if k.Variable? {
      var close := Find(t, '}', 1).value;
      rest := t[close + 1..];
      assert t == ['{'] + k.key + ['}'] + rest;
    } else if k.c == '{' || k.c == '}' {
      rest := t[2..];
    } else {
      rest := t[1..];
    }
  }

  lemma {:induction false} TokensArePrintable(t: string)
    requires Tokens(t).Some?
    ensures var ks := Tokens(t).value;
            Print(ks) == t && forall i :: 0 <= i < |ks| ==> Printable(ks[i])
    decreases |t|
  {
    if t != "" {
      var k, rest := FirstToken(t);
      hide Tokens, PrintToken, Printable;
      TokensArePrintable(rest);
      assert Tokens(t).value[1..] == Tokens(rest).value;
    }
  }

  lemma {:induction false} PrintedTokens(ks: seq<Token>, rest: string)
    requires forall i :: 0 <= i < |ks| ==> Printable(ks[i])
    ensures Tokens(Print(ks) + rest) == if Tokens(rest).Some? then Some(ks + Tokens(rest).value) else None
  {
    hide Tokens, PrintToken, Printable;
    if ks == [] {
      assert Print(ks) + rest == rest;
      if Tokens(rest).Some? { assert ks + Tokens(rest).value == Tokens(rest).value; }
    } else {
      PrintedTokens(ks[1..], rest);
      TokensOfPrinted(ks[0], Print(ks[1..]) + rest);
      assert Print(ks) + rest == PrintToken(ks[0]) + (Print(ks[1..]) + rest);
      if Tokens(rest).Some? {
        assert ks + Tokens(rest).value == [ks[0]] + (ks[1..] + Tokens(rest).value);
      }
    }
  }

  /** Templates and token lists correspond one to one. */
  lemma TokensExactly(t: string, ks: seq<Token>)
    ensures Tokens(t) == Some(ks) <==>
            Print(ks) == t && forall i :: 0 <= i < |ks| ==> Printable(ks[i])
  {
    if Tokens(t) == Some(ks) { TokensArePrintable(t); }
    if forall i :: 0 <= i < |ks| ==> Printable(ks[i]) {
      PrintedTokens(ks, "");
      assert Print(ks) + "" == Print(ks) && ks + [] == ks;
      assert Tokens("") == Some([]);
    }
  }

  // ---- What the scanners compute -------------------------------------------------------

  type Vars = map<string, string>

  /** Substitution in one pass: values are inserted as they are and never scanned again. */
  function Substitute(ks: seq<Token>, vars: Vars): Option<string> {
    if ks == [] then Some("") else
      match ks[0]
      case Literal(c) => Append([c], Substitute(ks[1..], vars))
      case Variable(key) => if key in vars then Append(vars[key], Substitute(ks[1..], vars)) else None
  }

  function Append(a: string, b: Option<string>): Option<string> {
    if b.Some? then Some(a + b.value) else None
  }

  function Render(t: string, vars: Vars): Option<string> {
    if Tokens(t).Some? then Substitute(Tokens(t).value, vars) else None
  }

  predicate GoodKey(key: string) { key != "" && '{' !in key && '}' !in key }

  ghost function Keys(ks: seq<Token>): set<string> {
    set k | k in ks && k.Variable? :: k.key
  }

  /** The variables `extract_template_variables` reports; `None` where it throws. */
  ghost function Extract(t: string): Option<set<string>> {
    if Tokens(t).Some? && forall key :: key in Keys(Tokens(t).value) ==> GoodKey(key)
    then Some(Keys(Tokens(t).value))
    else None
  }

  lemma SubstituteFirst(ks: seq<Token>, vars: Vars)
    requires ks != []
    ensures Substitute(ks, vars) ==
            if ks[0].Literal? then Append([ks[0].c], Substitute(ks[1..], vars))
            else if ks[0].key in vars then Append(vars[ks[0].key], Substitute(ks[1..], vars)) else None
  {
  }

  lemma AppendTwice(front: string, x: Option<string>, y: Option<string>)
    requires x.Some?
    ensures Append(front, Append(x.value, y)) == Append(Append(front, x).value, y)
  {
    if y.Some? { assert front + (x.value + y.value) == front + x.value + y.value; }
  }

  lemma {:induction false} SubstituteConcat(a: seq<Token>, b: seq<Token>, vars: Vars)
    ensures Substitute(a + b, vars)
         == if Substitute(a, vars).Some? then Append(Substitute(a, vars).value, Substitute(b, vars)) else None
  {
    if a == [] {
      assert a + b == b;
      if Substitute(b, vars).Some? { assert "" + Substitute(b, vars).value == Substitute(b, vars).value; }
    } else {
      SubstituteConcat(a[1..], b, vars);
      assert (a + b)[1..] == a[1..] + b && (a + b)[0] == a[0];
      SubstituteFirst(a, vars);
      SubstituteFirst(a + b, vars);
      hide Substitute;
      var front := if a[0].Literal? then [a[0].c] else if a[0].key in vars then vars[a[0].key] else "";
      if Substitute(a[1..], vars).Some? { AppendTwice(front, Substitute(a[1..], vars), Substitute(b, vars)); }
    }
  }

  /** Rendering distributes over concatenation behind any well-formed template. */
  lemma RenderConcat(a: string, b: string, vars: Vars)
    requires Tokens(a).Some?
    ensures Render(a + b, vars)
         == if Render(a, vars).Some? then Append(Render(a, vars).value, Render(b, vars)) else None
  {
    TokensArePrintable(a);
    PrintedTokens(Tokens(a).value, b);
    if Tokens(b).Some? {
      SubstituteConcat(Tokens(a).value, Tokens(b).value, vars);
    }
  }

  // One token off the front of the rest of the template.
  lemma RenderStep(k: Token, rest: string, vars: Vars)
    requires Printable(k)
    ensures Render(PrintToken(k) + rest, vars) ==
            match k
            case Literal(c) => Append([c], Render(rest, vars))
            case Variable(key) => if key in vars then Append(vars[key], Render(rest, vars)) else None
  {
    TokensOfPrinted(k, rest);
    if Tokens(rest).Some? {
      assert ([k] + Tokens(rest).value)[1..] == Tokens(rest).value;
    }
  }

  /** A variable renders to its value verbatim, braces and all. */
  lemma RenderVariable(key: string, vars: Vars)
    requires GoodKey(key) && key in vars
    ensures Render(['{'] + key + ['}'], vars) == Some(vars[key])
  {
    var k := Variable(key);
    RenderStep(k, "", vars);
    assert PrintToken(k) + "" == ['{'] + key + ['}'];
    assert vars[key] + "" == vars[key];
  }

  function Escape(s: string): string {
    if s == "" then "" else PrintToken(Literal(s[0])) + Escape(s[1..])
  }

  /** Rendering a brace-doubled string gives the original back, whatever the variables. */
  lemma {:induction false} RenderEscaped(s: string, vars: Vars)
    ensures Render(Escape(s), vars) == Some(s)
  {
    if s != "" {
      RenderEscaped(s[1..], vars);
      TokensOfPrinted(Literal(s[0]), Escape(s[1..]));
      var ks := Tokens(Escape(s[1..])).value;
      assert ([Literal(s[0])] + ks)[1..] == ks;
      assert [s[0]] + s[1..] == s;
    }
  }

  lemma {:induction false} SubstituteDefined(ks: seq<Token>, vars: Vars)
    requires Keys(ks) <= vars.Keys
    ensures Substitute(ks, vars).Some?
  {
    if ks != [] {
      assert ks[0] in ks;
      SubstituteDefined(ks[1..], vars);
    }
  }

  // ---- The node's use of templates -----------------------------------------------------

  const ALLOWED: set<string> :=
    {"system_instruction", "task_instruction", "context", "source_topic", "sample_period_seconds", "frame_sequence"}

  /** The variables of one frame; system instruction and context are blanked in structured delivery. */
  function PromptVars(system: string, task: string, context: string, topic: string, period: string,
                      frame: string, structured: bool): Vars
  {
    map["system_instruction" := if structured then "" else system,
        "task_instruction" := task,
        "context" := if structured then "" else context,
        "source_topic" := topic,
        "sample_period_seconds" := period,
        "frame_sequence" := frame]
  }

  function InBraces(key: string): string { ['{'] + key + ['}'] }

  /** What each variable stands for on a frame. */
  lemma VariablesMean(system: string, task: string, context: string, topic: string, period: string,
                      frame: string, structured: bool)
    ensures var vars := PromptVars(system, task, context, topic, period, frame, structured);
            && Render(InBraces("system_instruction"), vars) == Some(if structured then "" else system)
            && Render(InBraces("task_instruction"), vars) == Some(task)
            && Render(InBraces("context"), vars) == Some(if structured then "" else context)
            && Render(InBraces("source_topic"), vars) == Some(topic)
            && Render(InBraces("sample_period_seconds"), vars) == Some(period)
            && Render(InBraces("frame_sequence"), vars) == Some(frame)
  {
    hide Render, InBraces, PromptVars, GoodKey;
    var vars := PromptVars(system, task, context, topic, period, frame, structured);
    NamesAreGood();
    Values(system, task, context, topic, period, frame, structured);
    OneVariable("system_instruction", vars);
    OneVariable("task_instruction", vars);
    OneVariable("context", vars);
    OneVariable("source_topic", vars);
    OneVariable("sample_period_seconds", vars);
    OneVariable("frame_sequence", vars);
  }

  lemma NamesAreGood()
    ensures GoodKey("system_instruction") && GoodKey("task_instruction") && GoodKey("context")
    ensures GoodKey("source_topic") && GoodKey("sample_period_seconds") && GoodKey("frame_sequence")
  {
    hide GoodKey;
    SystemInstructionIsGood();
    TaskInstructionIsGood();
    ContextIsGood();
    SourceTopicIsGood();
    SamplePeriodSecondsIsGood();
    FrameSequenceIsGood();
  }

  lemma SystemInstructionIsGood() ensures GoodKey("system_instruction") { }
  lemma TaskInstructionIsGood() ensures GoodKey("task_instruction") { }
  lemma ContextIsGood() ensures GoodKey("context") { }
  lemma SourceTopicIsGood() ensures GoodKey("source_topic") { }
  lemma SamplePeriodSecondsIsGood() ensures GoodKey("sample_period_seconds") { }
  lemma FrameSequenceIsGood() ensures GoodKey("frame_sequence") { }

  lemma Values(system: string, task: string, context: string, topic: string, period: string, frame: string, structured: bool)
    ensures var vars := PromptVars(system, task, context, topic, period, frame, structured);
            && "system_instruction" in vars && vars["system_instruction"] == (if structured then "" else system)
            && "task_instruction" in vars && vars["task_instruction"] == (task)
            && "context" in vars && vars["context"] == (if structured then "" else context)
            && "source_topic" in vars && vars["source_topic"] == (topic)
            && "sample_period_seconds" in vars && vars["sample_period_seconds"] == (period)
            && "frame_sequence" in vars && vars["frame_sequence"] == (frame)
  {
  }

  lemma OneVariable(key: string, vars: Vars)
    requires GoodKey(key) && key in vars
    ensures Render(InBraces(key), vars) == Some(vars[key])
  {
    RenderVariable(key, vars);
  }

  /** A variable that is not defined makes rendering throw, wherever it stands. */
  lemma {:induction false} UndefinedThrows(ks: seq<Token>, key: string, vars: Vars)
    requires Variable(key) in ks && key !in vars
    ensures Substitute(ks, vars) == None
  {
    if ks[0] != Variable(key) {
      assert Variable(key) in ks[1..];
      UndefinedThrows(ks[1..], key, vars);
    }
  }

  /** Extraction succeeds exactly for well-formed templates whose names are non-empty and free of braces, and gives those names. */
  lemma ExtractExactly(t: string, names: set<string>)
    ensures Extract(t) == Some(names) <==>
            && Tokens(t).Some?
            && (forall key :: Variable(key) in Tokens(t).value ==> key != "" && '{' !in key && '}' !in key)
            && (forall key :: key in names <==> Variable(key) in Tokens(t).value)
  {
    if Tokens(t).Some? {
      assert forall key :: key in Keys(Tokens(t).value) <==> Variable(key) in Tokens(t).value;
      if forall key :: key in names <==> Variable(key) in Tokens(t).value { assert names == Keys(Tokens(t).value); }
    }
  }

  /** A template accepted at startup renders for every frame. */
  lemma ValidatedAlwaysRenders(t: string, system: string, task: string, context: string, topic: string,
                               period: string, frame: string, structured: bool)
    requires Extract(t).Some? && Extract(t).value <= ALLOWED
    ensures Render(t, PromptVars(system, task, context, topic, period, frame, structured)).Some?
  {
    var vars := PromptVars(system, task, context, topic, period, frame, structured);
    assert vars.Keys == ALLOWED;
    SubstituteDefined(Tokens(t).value, vars);
  }

  // ---- The scanners --------------------------------------------------------------------

  /** `std::string::find`. */
  method FindChar(s: string, c: char, from: nat) returns (r: Option<nat>)
    ensures r == Find(s, c, from)
  {
    var k := from;
    while k < |s|
      invariant from <= k
      invariant Find(s, c, from) == Find(s, c, k)
    {
      if s[k] == c { return Some(k); }
      k := k + 1;
    }
    return None;
  }

  lemma {:induction false} FindShift(t: string, c: char, pos: nat, from: nat)
    requires pos <= |t|
    ensures Find(t, c, pos + from) ==
            match Find(t[pos..], c, from) case Some(k) => Some(pos + k) case None => None
    decreases |t| - pos - from
  {
    if pos + from < |t| && t[pos + from] != c { FindShift(t, c, pos, from + 1); }
  }

  lemma PairAt(t: string, pos: nat)
    requires pos + 1 < |t|
    ensures t[pos..] == [t[pos], t[pos + 1]] + t[pos + 2..]
  {
  }

  lemma VariableAt(t: string, pos: nat, close: nat)
    requires pos < close < |t| && t[pos] == '{' && t[close] == '}'
    ensures t[pos..] == PrintToken(Variable(t[pos + 1..close])) + t[close + 1..]
  {
  }

  // Where the scanners find no token, the grammar has none.
  lemma NoTokenAt(t: string, pos: nat)
    requires pos < |t|
    requires || (t[pos] == '{' && Find(t, '}', pos + 1).None? && !(pos + 1 < |t| && t[pos + 1] == '{'))
             || (t[pos] == '}' && !(pos + 1 < |t| && t[pos + 1] == '}'))
    ensures Tokens(t[pos..]).None?
  {
    FindShift(t, '}', pos, 1);
    assert t[pos..][0] == t[pos];
    if pos + 1 < |t| { assert t[pos..][1] == t[pos + 1]; }
  }

  /** The token at `pos` and the position behind it; `None` where the scanners throw. */
  method ScanToken(templ: string, pos: nat) returns (r: Option<(Token, nat)>)
    requires pos < |templ|
    ensures match r
            case Some((k, next)) =>
              pos < next <= |templ| && Printable(k) && templ[pos..] == PrintToken(k) + templ[next..]
            case None => Tokens(templ[pos..]).None?
  {
    hide Tokens;
    var ch := templ[pos];
    if ch == '{' {
      if pos + 1 < |templ| && templ[pos + 1] == '{' {
        PairAt(templ, pos);
        return Some((Literal('{'), pos + 2));
      }
      var close := FindChar(templ, '}', pos + 1);
      if close.None? {
        NoTokenAt(templ, pos);
        return None;
      }
      VariableAt(templ, pos, close.value);
      return Some((Variable(templ[pos + 1..close.value]), close.value + 1));
    }
    if ch == '}' {
      if pos + 1 < |templ| && templ[pos + 1] == '}' {
        PairAt(templ, pos);
        return Some((Literal('}'), pos + 2));
      }
      NoTokenAt(templ, pos);
      return None;
    }
    return Some((Literal(ch), pos + 1));
  }

  lemma AppendAppend(a: string, b: string, c: Option<string>)
    ensures Append(a, Append(b, c)) == Append(a + b, c)
  {
    if c.Some? { assert a + (b + c.value) == a + b + c.value; }
  }

  method RenderTemplate(templ: string, vars: Vars) returns (r: Option<string>)
    ensures r == Render(templ, vars)
  {
    var out, pos := "", 0;
    assert templ[0..] == templ;
    if Render(templ, vars).Some? { assert "" + Render(templ, vars).value == Render(templ, vars).value; }
    while pos < |templ|
      invariant 0 <= pos <= |templ|
      invariant Render(templ, vars) == Append(out, Render(templ[pos..], vars))
    {
      hide Substitute, PrintToken, Tokens;
      var scanned := ScanToken(templ, pos);
      if scanned.None? { return None; }
      var (token, next) := scanned.value;
      RenderStep(token, templ[next..], vars);
      var piece;
      match token {
        case Literal(c) => piece := [c];
        case Variable(key) =>
          if key !in vars { return None; }
          piece := vars[key];
      }
      AppendAppend(out, piece, Render(templ[next..], vars));
      out, pos := out + piece, next;
    }
    assert templ[pos..] == "" && out + "" == out;
    return Some(out);
  }

  // What is left to extract from `rest` when `vars` were already found.
  ghost function ExtractMore(vars: set<string>, rest: string): Option<set<string>> {
    if Extract(rest).Some? then Some(vars + Extract(rest).value) else None
  }

  lemma ExtractStep(vars: set<string>, k: Token, rest: string)
    requires Printable(k)
    ensures ExtractMore(vars, PrintToken(k) + rest) ==
            match k
            case Literal(_) => ExtractMore(vars, rest)
            case Variable(key) => if GoodKey(key) then ExtractMore(vars + {key}, rest) else None
  {
    hide PrintToken, Printable, Keys;
    TokensOfPrinted(k, rest);
    if Tokens(rest).Some? {
      var ks := Tokens(rest).value;
      KeysCons(k, ks);
      if k.Variable? {
        assert vars + ({k.key} + Keys(ks)) == vars + {k.key} + Keys(ks);
      } else {
        assert {} + Keys(ks) == Keys(ks);
      }
    }
  }

  lemma KeysCons(k: Token, ks: seq<Token>)
    ensures Keys([k] + ks) == (if k.Variable? then {k.key} else {}) + Keys(ks)
  {
    forall key | key in (if k.Variable? then {k.key} else {}) + Keys(ks)
      ensures key in Keys([k] + ks)
    {
      if key in Keys(ks) {
        var x :| x in ks && x.Variable? && x.key == key;
        assert x in [k] + ks;
      } else {
        assert k in [k] + ks;
      }
    }
  }

  method ExtractTemplateVariables(templ: string) returns (r: Option<set<string>>)
    ensures r == Extract(templ)
  {
    var vars: set<string> := {};
    var pos := 0;
    assert templ[0..] == templ;
    if Extract(templ).Some? { assert {} + Extract(templ).value == Extract(templ).value; }
    while pos < |templ|
      invariant 0 <= pos <= |templ|
      invariant Extract(templ) == ExtractMore(vars, templ[pos..])
    {
      hide Keys, PrintToken, Tokens;
      var scanned := ScanToken(templ, pos);
      if scanned.None? { return None; }
      var (token, next) := scanned.value;
      ExtractStep(vars, token, templ[next..]);
      match token {
        case Literal(_) =>
        case Variable(key) =>
          if key == "" { return None; }
          if '{' in key || '}' in key { return None; }
          vars := vars + {key};
      }
      pos := next;
    }
    assert templ[pos..] == "" && Keys([]) == {};
    assert vars + {} == vars;
    return Some(vars);
  }

  /** `validate_template_variables`: false where it throws. */
  method ValidateTemplateVariables(templ: string) returns (ok: bool)
    ensures ok <==> Extract(templ).Some? && Extract(templ).value <= ALLOWED
  {
    var vars := ExtractTemplateVariables(templ);
    return vars.Some? && vars.value <= ALLOWED;
  }

  /** The whole path: a template validated at startup, rendered for a frame, never throws. */
  method RenderEffectivePrompt(templ: string, system: string, task: string, context: string, topic: string,
                               period: string, frame: string, structured: bool) returns (prompt: string)
    requires Extract(templ).Some? && Extract(templ).value <= ALLOWED
    ensures Render(templ, PromptVars(system, task, context, topic, period, frame, structured)) == Some(prompt)
  {
    ValidatedAlwaysRenders(templ, system, task, context, topic, period, frame, structured);
    var r := RenderTemplate(templ, PromptVars(system, task, context, topic, period, frame, structured));
    return r.value;
  }
}
