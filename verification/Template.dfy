/**
The template renderer: a scanner that replaces `{{ expression }}` and copies everything else,
including an opening brace pair that is never closed.
*/
module Template {
  import opened Wrappers
  import opened Text

  datatype Context = Context(
    services: map<string, seq<string>>,
    secrets: map<string, string>,
    meta: map<string, string>,
    env: map<string, string>)

  // ---------- trimming ----------

  /** The characters a trim removes: Unicode White_Space, or one given character. */
  datatype CharClass = Whitespace | Only(c: char)

  predicate In(c: char, cls: CharClass) {
    match cls
    case Only(d) => c == d
    case Whitespace =>
      || '\U{9}' <= c <= '\U{d}' || c == ' ' || c == '\U{85}' || c == '\U{a0}' || c == '\U{1680}'
      || '\U{2000}' <= c <= '\U{200a}' || c == '\U{2028}' || c == '\U{2029}' || c == '\U{202f}'
      || c == '\U{205f}' || c == '\U{3000}'
  }

  /** The twenty-five characters with the Unicode property White_Space. */
  const WHITE_SPACE := "\U{9}\U{a}\U{b}\U{c}\U{d}\U{20}\U{85}\U{a0}\U{1680}\U{2000}\U{2001}\U{2002}\U{2003}\U{2004}"
                       + "\U{2005}\U{2006}\U{2007}\U{2008}\U{2009}\U{200a}\U{2028}\U{2029}\U{202f}\U{205f}\U{3000}"

  lemma WhitespaceIs(c: char)
    ensures In(c, Whitespace) <==> c in WHITE_SPACE
  {
  }

  /** `n` is the number of leading characters of the class. */
  predicate IsLeading(s: string, cls: CharClass, n: int) {
    0 <= n <= |s| && (forall i :: 0 <= i < n ==> In(s[i], cls)) && (n < |s| ==> !In(s[n], cls))
  }

  predicate IsTrailing(s: string, cls: CharClass, n: int) {
    && 0 <= n <= |s| && (forall i :: |s| - n <= i < |s| ==> In(s[i], cls))
    && (n < |s| ==> !In(s[|s| - n - 1], cls))
  }

  method CountLeading(s: string, cls: CharClass) returns (n: nat)
    ensures IsLeading(s, cls, n)
  {
    n := 0;
    while n < |s| && In(s[n], cls)
      invariant n <= |s| && forall i :: 0 <= i < n ==> In(s[i], cls)
    {
      n := n + 1;
    }
  }

  method CountTrailing(s: string, cls: CharClass) returns (n: nat)
    ensures IsTrailing(s, cls, n)
  {
    n := 0;
    while n < |s| && In(s[|s| - n - 1], cls)
      invariant n <= |s| && forall i :: |s| - n <= i < |s| ==> In(s[i], cls)
    {
      n := n + 1;
    }
  }

  lemma {:induction false} LeadingExists(s: string, cls: CharClass) returns (n: nat)
    ensures IsLeading(s, cls, n)
  {
    if s == "" || !In(s[0], cls) {
      n := 0;
    } else {
      var m := LeadingExists(s[1..], cls);
      n := m + 1;
    }
  }

  lemma {:induction false} TrailingExists(s: string, cls: CharClass) returns (n: nat)
    ensures IsTrailing(s, cls, n)
  {
    if s == "" || !In(s[|s| - 1], cls) {
      n := 0;
    } else {
      var m := TrailingExists(s[..|s| - 1], cls);
      n := m + 1;
    }
  }

  ghost function Leading(s: string, cls: CharClass): (n: nat)
    ensures IsLeading(s, cls, n)
  {
    assert exists n: nat :: IsLeading(s, cls, n) by {
      var n := LeadingExists(s, cls);
    }
    var n: nat :| IsLeading(s, cls, n);
    n
  }

  ghost function Trailing(s: string, cls: CharClass): (n: nat)
    ensures IsTrailing(s, cls, n)
  {
    assert exists n: nat :: IsTrailing(s, cls, n) by {
      var n := TrailingExists(s, cls);
    }
    var n: nat :| IsTrailing(s, cls, n);
    n
  }

  ghost function StripLeft(s: string, cls: CharClass): string {
    s[Leading(s, cls)..]
  }

  ghost function StripRight(s: string, cls: CharClass): string {
    s[..|s| - Trailing(s, cls)]
  }

  ghost function Trim(s: string, cls: CharClass): string {
    StripRight(StripLeft(s, cls), cls)
  }

  method TrimText(s: string, cls: CharClass) returns (r: string)
    ensures r == Trim(s, cls)
  {
    var lead := CountLeading(s, cls);
    LeadingIs(s, cls, lead);
    var rest := s[lead..];
    var trail := CountTrailing(rest, cls);
    TrailingIs(rest, cls, trail);
    r := rest[..|rest| - trail];
  }

  lemma LeadingIs(s: string, cls: CharClass, n: int)
    requires IsLeading(s, cls, n)
    ensures Leading(s, cls) == n
  {
    var m := Leading(s, cls);
    assert IsLeading(s, cls, m);
  }

  lemma TrailingIs(s: string, cls: CharClass, n: int)
    requires IsTrailing(s, cls, n)
    ensures Trailing(s, cls) == n
  {
    var m := Trailing(s, cls);
    assert IsTrailing(s, cls, m);
  }

  /** Trimming undoes padding: it removes exactly the class characters around a core. */
  lemma TrimIs(before: string, core: string, after: string, cls: CharClass)
    requires (forall c :: c in before ==> In(c, cls)) && (forall c :: c in after ==> In(c, cls))
    requires core != "" && !In(core[0], cls) && !In(core[|core| - 1], cls)
    ensures Trim(before + core + after, cls) == core
  {
    var s := before + core + after;
    assert s[|before|] == core[0];
    LeadingIs(s, cls, |before|);
    assert s[|before|..] == core + after;
    assert (core + after)[|core| - 1] == core[|core| - 1];
    TrailingIs(core + after, cls, |after|);
  }

  // ---------- expressions ----------

  /** The argument of a function-style expression such as `service "name"`. */
  ghost function StripFunc(expr: string, name: string): Option<string> {
    if !(name <= expr) then None
    else
      var rest := Trim(Trim(StripLeft(expr[|name|..], Whitespace), Only('"')), Only('\''));
      if rest == "" then None else Some(rest)
  }

  function Lookup(m: map<string, string>, key: string): string {
    if key in m then m[key] else ""
  }

  function AllAddresses(ctx: Context, name: string): string {
    if name in ctx.services && ctx.services[name] != [] then Join(ctx.services[name], ",") else ""
  }

  function FirstAddress(ctx: Context, name: string): string {
    if name in ctx.services && ctx.services[name] != [] then ctx.services[name][0] else ""
  }

  /** A bare key: metadata first, then the environment. */
  function BareKey(expr: string, ctx: Context): (r: string)
    ensures expr in ctx.meta ==> r == ctx.meta[expr]
    ensures expr !in ctx.meta && expr in ctx.env ==> r == ctx.env[expr]
    ensures expr !in ctx.meta && expr !in ctx.env ==> r == ""
  {
    if expr in ctx.meta then ctx.meta[expr] else Lookup(ctx.env, expr)
  }

  /** What an expression is read as. */
  datatype Form = Services(name: string) | Service(name: string) | Secret(name: string)
                | Meta(key: string) | Env(key: string) | Bare(key: string)

  ghost function FormOf(expr: string): Form {
    if StripFunc(expr, "services").Some? then Services(StripFunc(expr, "services").value)
    else if StripFunc(expr, "service").Some? then Service(StripFunc(expr, "service").value)
    else if StripFunc(expr, "secret").Some? then Secret(StripFunc(expr, "secret").value)
    else if "meta." <= expr then Meta(expr[5..])
    else if "env." <= expr then Env(expr[4..])
    else Bare(expr)
  }

  function ValueOf(form: Form, ctx: Context): string {
    match form
    case Services(name) => AllAddresses(ctx, name)
    case Service(name) => FirstAddress(ctx, name)
    case Secret(name) => Lookup(ctx.secrets, name)
    case Meta(key) => Lookup(ctx.meta, key)
    case Env(key) => Lookup(ctx.env, key)
    case Bare(key) => BareKey(key, ctx)
  }

  ghost function Evaluate(expr: string, ctx: Context): string {
    ValueOf(FormOf(expr), ctx)
  }

  method FunctionArgument(expr: string, name: string) returns (r: Option<string>)
    ensures r == StripFunc(expr, name)
  {
    if !(name <= expr) {
      return None;
    }
    var rest := expr[|name|..];
    var lead := CountLeading(rest, Whitespace);
    LeadingIs(rest, Whitespace, lead);
    rest := TrimText(rest[lead..], Only('"'));
    rest := TrimText(rest, Only('\''));
    r := if rest == "" then None else Some(rest);
  }

  method EvaluateExpr(expr: string, ctx: Context) returns (value: string)
    ensures value == Evaluate(expr, ctx)
  {
    var arg := FunctionArgument(expr, "services");
    if arg.Some? {
      return AllAddresses(ctx, arg.value);
    }
    arg := FunctionArgument(expr, "service");
    if arg.Some? {
      return FirstAddress(ctx, arg.value);
    }
    arg := FunctionArgument(expr, "secret");
    if arg.Some? {
      return Lookup(ctx.secrets, arg.value);
    }
    if "meta." <= expr {
      return Lookup(ctx.meta, expr[5..]);
    }
    if "env." <= expr {
      return Lookup(ctx.env, expr[4..]);
    }
    return BareKey(expr, ctx);
  }

  // ---------- the grammar ----------

  predicate PairAt(s: string, c: char, i: int) {
    0 <= i < |s| - 1 && s[i] == c && s[i + 1] == c
  }

  ghost predicate HasPair(s: string, c: char) {
    exists i :: PairAt(s, c, i)
  }

  /** Text with no pair of the character, nor half of one at its end. */
  ghost predicate PairFree(s: string, c: char) {
    !HasPair(s, c) && (s == "" || s[|s| - 1] != c)
  }

  datatype Segment = Literal(text: string) | Expression(text: string)

  ghost predicate Proper(seg: Segment) {
    PairFree(seg.text, if seg.Literal? then '{' else '}')
  }

  ghost predicate AllProper(segs: seq<Segment>) {
    forall i :: 0 <= i < |segs| ==> Proper(segs[i])
  }

  function PrintSegment(seg: Segment): string {
    if seg.Literal? then seg.text else "{{" + seg.text + "}}"
  }

  function Print(segs: seq<Segment>): string {
    if segs == [] then "" else PrintSegment(segs[0]) + Print(segs[1..])
  }

  ghost function Meaning(segs: seq<Segment>, ctx: Context): string {
    if segs == [] then ""
    else
      (if segs[0].Literal? then segs[0].text else Evaluate(Trim(segs[0].text, Whitespace), ctx))
      + Meaning(segs[1..], ctx)
  }

  /** A template cut at its first opening pair and the first closing pair after it. */
  datatype Cut =
    | NoOpen
    | Unclosed(before: string, after: string)
    | Closed(before: string, expr: string, after: string)

  ghost predicate IsCut(template: string, cut: Cut) {
    match cut
    case NoOpen => !HasPair(template, '{')
    case Unclosed(before, after) =>
      template == before + ("{{" + after) && PairFree(before, '{') && !HasPair(after, '}')
    case Closed(before, expr, after) =>
      template == before + ("{{" + (expr + ("}}" + after))) && PairFree(before, '{') && PairFree(expr, '}')
  }

  method FindPair(s: string, c: char) returns (r: Option<nat>)
    ensures r.None? <==> !HasPair(s, c)
    ensures r.Some? ==> PairAt(s, c, r.value) && PairFree(s[..r.value], c)
  {
    var i := 0;
    while i + 1 < |s|
      invariant 0 <= i && forall j :: j < i ==> !PairAt(s, c, j)
    {
      if s[i] == c && s[i + 1] == c {
        FirstPair(s, c, i);
        return Some(i);
      }
      i := i + 1;
    }
    return None;
  }

  lemma FirstPair(s: string, c: char, i: nat)
    requires PairAt(s, c, i) && forall j :: j < i ==> !PairAt(s, c, j)
    ensures HasPair(s, c) && PairFree(s[..i], c)
  {
    assert forall j :: PairAt(s[..i], c, j) ==> PairAt(s, c, j);
    assert i > 0 ==> !PairAt(s, c, i - 1);
  }

  lemma SplitAt(s: string, c: char, i: nat)
    requires PairAt(s, c, i)
    ensures s == s[..i] + ([c, c] + s[i + 2..])
  {
  }

  method CutTemplate(template: string) returns (cut: Cut)
    ensures IsCut(template, cut)
  {
    var open := FindPair(template, '{');
    if open.None? {
      return NoOpen;
    }
    SplitAt(template, '{', open.value);
    var after := template[open.value + 2..];
    var close := FindPair(after, '}');
    if close.None? {
      return Unclosed(template[..open.value], after);
    }
    SplitAt(after, '}', close.value);
    return Closed(template[..open.value], after[..close.value], after[close.value + 2..]);
  }

  // ---------- the cut is determined ----------

  lemma {:induction false} FirstPairExists(s: string, c: char, bound: nat) returns (i: nat)
    requires PairAt(s, c, bound)
    ensures PairAt(s, c, i) && PairFree(s[..i], c)
  {
    if j :| 0 <= j < bound && PairAt(s, c, j) {
      i := FirstPairExists(s, c, j);
    } else {
      FirstPair(s, c, bound);
      i := bound;
    }
  }

  lemma CutAfterOpen(before: string, after: string) returns (cut: Cut)
    requires PairFree(before, '{')
    ensures IsCut(before + ("{{" + after), cut)
  {
    if HasPair(after, '}') {
      var d: nat :| PairAt(after, '}', d);
      var j := FirstPairExists(after, '}', d);
      SplitAt(after, '}', j);
      cut := Closed(before, after[..j], after[j + 2..]);
    } else {
      cut := Unclosed(before, after);
    }
  }

  lemma CutExists(template: string) returns (cut: Cut)
    ensures IsCut(template, cut)
  {
    if HasPair(template, '{') {
      var b: nat :| PairAt(template, '{', b);
      var i := FirstPairExists(template, '{', b);
      SplitAt(template, '{', i);
      cut := CutAfterOpen(template[..i], template[i + 2..]);
    } else {
      cut := NoOpen;
    }
  }

  lemma ShorterHasHalf(a: string, x: string, b: string, y: string, c: char)
    requires a + ([c, c] + x) == b + ([c, c] + y) && |a| < |b|
    ensures !PairFree(b, c)
  {
    var s := a + ([c, c] + x);
    assert s[|a|] == c && s[|a| + 1] == c;
    assert s[|a|] == b[|a|];
    if |a| + 1 < |b| {
      assert s[|a| + 1] == b[|a| + 1];
      assert PairAt(b, c, |a|);
    }
  }

  lemma SplitIsUnique(a: string, x: string, b: string, y: string, c: char)
    requires a + ([c, c] + x) == b + ([c, c] + y) && PairFree(a, c) && PairFree(b, c)
    ensures a == b && x == y
  {
    if |a| < |b| {
      ShorterHasHalf(a, x, b, y, c);
    } else if |b| < |a| {
      ShorterHasHalf(b, y, a, x, c);
    }
    var s := a + ([c, c] + x);
    assert a == s[..|a|] && b == s[..|a|];
    assert x == s[|a| + 2..] && y == s[|a| + 2..];
  }

  lemma PairInside(a: string, x: string, c: char)
    ensures HasPair(a + ([c, c] + x), c)
  {
    assert PairAt(a + ([c, c] + x), c, |a|);
  }

  /** The rest of a template after its first opening pair. */
  ghost function AfterOpen(cut: Cut): string
    requires !cut.NoOpen?
  {
    match cut
    case Unclosed(_, after) => after
    case Closed(_, expr, after) => expr + ("}}" + after)
  }

  lemma CutIsUnique(template: string, c1: Cut, c2: Cut)
    requires IsCut(template, c1) && IsCut(template, c2)
    ensures c1 == c2
  {
    if !c1.NoOpen? {
      PairInside(c1.before, AfterOpen(c1), '{');
    }
    if !c2.NoOpen? {
      PairInside(c2.before, AfterOpen(c2), '{');
    }
    if !c1.NoOpen? && !c2.NoOpen? {
      SplitIsUnique(c1.before, AfterOpen(c1), c2.before, AfterOpen(c2), '{');
      if c1.Closed? {
        PairInside(c1.expr, c1.after, '}');
      }
      if c2.Closed? {
        PairInside(c2.expr, c2.after, '}');
      }
      if c1.Closed? && c2.Closed? {
        SplitIsUnique(c1.expr, c1.after, c2.expr, c2.after, '}');
      }
    }
  }

  ghost function CutAt(template: string): (cut: Cut)
    ensures IsCut(template, cut)
  {
    assert exists cut :: IsCut(template, cut) by {
      var cut := CutExists(template);
    }
    var cut :| IsCut(template, cut);
    cut
  }

  // ---------- the renderer ----------

  ghost function Render(template: string, ctx: Context): string
    decreases |template|
  {
    match CutAt(template)
    case NoOpen => template
    case Unclosed(before, after) => before + ("{{" + Render(after, ctx))
    case Closed(before, expr, after) => before + (Evaluate(Trim(expr, Whitespace), ctx) + Render(after, ctx))
  }

  /** The scanning loop. */
  method RenderTemplate(template: string, ctx: Context) returns (result: string)
    ensures result == Render(template, ctx)
  {
    result := "";
    var remaining := template;
    var cut := CutTemplate(remaining);
    while !cut.NoOpen?
      invariant IsCut(remaining, cut)
      invariant result + Render(remaining, ctx) == Render(template, ctx)
      decreases |remaining|
    {
      CutIsUnique(remaining, cut, CutAt(remaining));
      if cut.Closed? {
        var expr := TrimText(cut.expr, Whitespace);
        var value := EvaluateExpr(expr, ctx);
        Regroup(result, cut.before, value, Render(cut.after, ctx));
        result, remaining := result + cut.before + value, cut.after;
      } else {
        Regroup(result, cut.before, "{{", Render(cut.after, ctx));
        result, remaining := result + cut.before + "{{", cut.after;
      }
      cut := CutTemplate(remaining);
    }
    CutIsUnique(remaining, cut, CutAt(remaining));
    result := result + remaining;
  }

  lemma Assoc(a: string, b: string, c: string)
    ensures (a + b) + c == a + (b + c)
  {
  }

  lemma Regroup(a: string, b: string, c: string, d: string)
    ensures a + (b + (c + d)) == a + b + c + d
  {
    Assoc(a, b, c + d);
    Assoc(a + b, c, d);
  }

  // ---------- rendering printed segments ----------

  lemma PairEarly(a: string, b: string, c: char, i: nat)
    requires PairAt(a + b, c, i) && i < |a|
    ensures !PairFree(a, c)
  {
    assert (a + b)[i] == a[i];
    if i + 1 < |a| {
      assert (a + b)[i + 1] == a[i + 1];
      assert PairAt(a, c, i);
    }
  }

  lemma PairFreeConcat(a: string, b: string, c: char)
    requires PairFree(a, c)
    ensures HasPair(a + b, c) <==> HasPair(b, c)
    ensures PairFree(b, c) ==> PairFree(a + b, c)
  {
    var s := a + b;
    if HasPair(s, c) {
      var i :| PairAt(s, c, i);
      if i < |a| {
        PairEarly(a, b, c, i);
      } else {
        assert PairAt(b, c, i - |a|);
      }
    }
    if HasPair(b, c) {
      var i :| PairAt(b, c, i);
      assert PairAt(s, c, i + |a|);
    }
  }

  lemma CutSkips(text: string, rest: string)
    requires PairFree(text, '{')
    ensures var cut := CutAt(rest);
            CutAt(text + rest) == if cut.NoOpen? then cut else cut.(before := text + cut.before)
  {
    var cut := CutAt(rest);
    if cut.NoOpen? {
      PairFreeConcat(text, rest, '{');
      CutIsUnique(text + rest, CutAt(text + rest), cut);
    } else {
      PairFreeConcat(text, cut.before, '{');
      Assoc(text, cut.before, "{{" + AfterOpen(cut));
      CutIsUnique(text + rest, CutAt(text + rest), cut.(before := text + cut.before));
    }
  }

  lemma RenderLiteral(text: string, rest: string, ctx: Context)
    requires Proper(Literal(text))
    ensures Render(text + rest, ctx) == text + Render(rest, ctx)
  {
    CutSkips(text, rest);
    var cut := CutAt(rest);
    if !cut.NoOpen? {
      var more := if cut.Closed? then Evaluate(Trim(cut.expr, Whitespace), ctx) + Render(cut.after, ctx)
                  else "{{" + Render(cut.after, ctx);
      Assoc(text, cut.before, more);
    }
  }

  lemma ExpressionCut(text: string, rest: string)
    requires PairFree(text, '}')
    ensures CutAt("{{" + text + "}}" + rest) == Closed("", text, rest)
  {
    var s := "{{" + text + "}}" + rest;
    Assoc("{{" + text, "}}", rest);
    Assoc("{{", text, "}}" + rest);
    assert s == "" + s;
    CutIsUnique(s, CutAt(s), Closed("", text, rest));
  }

  lemma RenderClosed(template: string, expr: string, after: string, ctx: Context)
    requires CutAt(template) == Closed("", expr, after)
    ensures Render(template, ctx) == Evaluate(Trim(expr, Whitespace), ctx) + Render(after, ctx)
  {
    NothingBefore(Evaluate(Trim(expr, Whitespace), ctx) + Render(after, ctx));
  }

  lemma RenderExpression(text: string, rest: string, ctx: Context)
    requires Proper(Expression(text))
    ensures Render("{{" + text + "}}" + rest, ctx) == Evaluate(Trim(text, Whitespace), ctx) + Render(rest, ctx)
  {
    ExpressionCut(text, rest);
    RenderClosed("{{" + text + "}}" + rest, text, rest, ctx);
  }

  /** Space inside the braces does not matter: an expression is evaluated without the whitespace around
      it, and what follows it is rendered on its own. */
  lemma SpacedExpression(before: string, core: string, after: string, rest: string, ctx: Context)
    requires (forall c :: c in before ==> In(c, Whitespace)) && (forall c :: c in after ==> In(c, Whitespace))
    requires core != "" && !In(core[0], Whitespace) && !In(core[|core| - 1], Whitespace)
    requires PairFree(before + core + after, '}')
    ensures Render("{{" + (before + core + after) + "}}" + rest, ctx) == Evaluate(core, ctx) + Render(rest, ctx)
  {
    RenderExpression(before + core + after, rest, ctx);
    TrimIs(before, core, after, Whitespace);
  }

  lemma NothingBefore(s: string)
    ensures "" + s == s
  {
  }

  /** Rendering a printed list of segments, followed by anything, gives the literals and the
      values of the trimmed expressions, followed by the rendering of the rest. */
  lemma {:induction false} RenderPrinted(segs: seq<Segment>, rest: string, ctx: Context)
    requires AllProper(segs)
    ensures Render(Print(segs) + rest, ctx) == Meaning(segs, ctx) + Render(rest, ctx)
  {
    if segs == [] {
      assert Print(segs) + rest == rest;
    } else {
      var seg, more := segs[0], Print(segs[1..]) + rest;
      var value := if seg.Literal? then seg.text else Evaluate(Trim(seg.text, Whitespace), ctx);
      Assoc(PrintSegment(seg), Print(segs[1..]), rest);
      RenderPrinted(segs[1..], rest, ctx);
      if seg.Literal? {
        RenderLiteral(seg.text, more, ctx);
      } else {
        RenderExpression(seg.text, more, ctx);
      }
      Assoc(value, Meaning(segs[1..], ctx), Render(rest, ctx));
    }
  }

  /** The round trip: printing segments and rendering gives their meaning. */
  lemma RoundTrip(segs: seq<Segment>, ctx: Context)
    requires AllProper(segs)
    ensures Render(Print(segs), ctx) == Meaning(segs, ctx)
  {
    RenderPrinted(segs, "", ctx);
    assert Print(segs) + "" == Print(segs);
    CutIsUnique("", CutAt(""), NoOpen);
    assert Meaning(segs, ctx) + "" == Meaning(segs, ctx);
  }

  // ---------- every template ----------

  /** Text with no closing pair is copied verbatim, however many opening pairs it contains. */
  lemma {:induction false} UnclosedIsVerbatim(text: string, ctx: Context)
    requires !HasPair(text, '}')
    ensures Render(text, ctx) == text
    decreases |text|
  {
    var cut := CutAt(text);
    if cut.Closed? {
      PairInside(cut.before + ("{{" + cut.expr), cut.after, '}');
      Assoc("{{", cut.expr, "}}" + cut.after);
      Assoc(cut.before, "{{" + cut.expr, "}}" + cut.after);
    } else if cut.Unclosed? {
      UnclosedIsVerbatim(cut.after, ctx);
    }
  }

  /** Nothing in the text will ever be replaced: no opening pair, or none closed after the first. */
  ghost predicate Inert(text: string) {
    !CutAt(text).Closed?
  }

  lemma InertIsVerbatim(text: string, ctx: Context)
    requires Inert(text)
    ensures Render(text, ctx) == text
  {
    var cut := CutAt(text);
    if cut.Unclosed? {
      UnclosedIsVerbatim(cut.after, ctx);
    }
  }

  /** The segments of a template and the inert text after them. */
  ghost function Parse(template: string): (r: (seq<Segment>, string))
    ensures AllProper(r.0) && Inert(r.1) && Print(r.0) + r.1 == template
    decreases |template|
  {
    match CutAt(template)
    case Closed(before, expr, after) =>
      var rest := Parse(after);
      ParsedPrints(before, expr, rest.0, rest.1);
      ([Literal(before), Expression(expr)] + rest.0, rest.1)
    case _ => ([], template)
  }

  lemma ParsedPrints(before: string, expr: string, segs: seq<Segment>, tail: string)
    ensures Print([Literal(before), Expression(expr)] + segs) + tail ==
            before + ("{{" + (expr + ("}}" + (Print(segs) + tail))))
  {
    var all, more := [Literal(before), Expression(expr)] + segs, [Expression(expr)] + segs;
    assert all[1..] == more && more[1..] == segs;
    assert Print(more) == "{{" + expr + "}}" + Print(segs);
    Assoc(before, Print(more), tail);
    Assoc("{{" + expr + "}}", Print(segs), tail);
    Assoc("{{" + expr, "}}", Print(segs) + tail);
    Assoc("{{", expr, "}}" + (Print(segs) + tail));
  }

  /** Every template is a list of proper segments followed by inert text, and renders to the
      segments' meaning followed by that text unchanged. Substituted values are never scanned. */
  lemma RenderIsMeaning(template: string, ctx: Context)
    ensures Render(template, ctx) == Meaning(Parse(template).0, ctx) + Parse(template).1
  {
    var (segs, tail) := Parse(template);
    RenderPrinted(segs, tail, ctx);
    InertIsVerbatim(tail, ctx);
  }

  // ---------- what expressions mean ----------

  predicate IsQuote(c: char) {
    c == '"' || c == '\''
  }

  /** A name that does not start or end with a quote. */
  predicate Plain(name: string) {
    name != "" && !IsQuote(name[0]) && !IsQuote(name[|name| - 1])
  }

  /** How an argument may be written: in double quotes, in single quotes or bare. */
  predicate IsWrap(q: string) {
    q == "\"" || q == "'" || q == ""
  }

  /** Whitespace, at least one character of it. */
  predicate IsGap(pad: string) {
    pad != "" && forall c :: c in pad ==> In(c, Whitespace)
  }

  /** A name that can be written so: no quotes at its ends and, when bare, no whitespace in front. */
  predicate IsName(name: string, q: string) {
    Plain(name) && (q == "" ==> !In(name[0], Whitespace))
  }

  function Wrapped(name: string, q: string): string {
    q + name + q
  }

  lemma DropPrefix(a: string, b: string)
    ensures a <= a + b && (a + b)[|a|..] == b
  {
  }

  lemma GapIsTrimmed(pad: string, s: string)
    requires IsGap(pad) && s != "" && !In(s[0], Whitespace)
    ensures StripLeft(pad + s, Whitespace) == s
  {
    assert (pad + s)[|pad|] == s[0];
    LeadingIs(pad + s, Whitespace, |pad|);
    DropPrefix(pad, s);
  }

  lemma TrimNothing(s: string, cls: CharClass)
    requires s != "" && !In(s[0], cls) && !In(s[|s| - 1], cls)
    ensures Trim(s, cls) == s
  {
    TrimIs("", s, "", cls);
    assert "" + s + "" == s;
  }

  lemma QuotesAreTrimmed(name: string, q: string)
    requires Plain(name) && IsWrap(q)
    ensures Trim(Trim(Wrapped(name, q), Only('"')), Only('\'')) == name
  {
    if q == "\"" {
      TrimIs(q, name, q, Only('"'));
      TrimNothing(name, Only('\''));
    } else if q == "'" {
      TrimNothing(Wrapped(name, q), Only('"'));
      TrimIs(q, name, q, Only('\''));
    } else {
      assert Wrapped(name, q) == name;
      TrimNothing(name, Only('"'));
      TrimNothing(name, Only('\''));
    }
  }

  lemma GivenArgument(func: string, pad: string, name: string, q: string)
    requires IsGap(pad) && IsWrap(q) && IsName(name, q)
    ensures StripFunc(func + (pad + Wrapped(name, q)), func) == Some(name)
  {
    DropPrefix(func, pad + Wrapped(name, q));
    assert Wrapped(name, q)[0] == if q == "" then name[0] else q[0];
    GapIsTrimmed(pad, Wrapped(name, q));
    QuotesAreTrimmed(name, q);
  }

  lemma NotPrefix(a: string, b: string, i: nat)
    requires i < |a| && (i >= |b| || a[i] != b[i])
    ensures !(a <= b)
  {
  }

  lemma NotPrefixOf(a: string, b: string, rest: string, i: nat)
    requires i < |a| && i < |b| && a[i] != b[i]
    ensures !(a <= b + rest)
  {
    assert (b + rest)[i] == b[i];
  }

  lemma ServicesForm(pad: string, name: string, q: string)
    requires IsGap(pad) && IsWrap(q) && IsName(name, q)
    ensures FormOf("services" + (pad + Wrapped(name, q))) == Services(name)
  {
    GivenArgument("services", pad, name, q);
  }

  lemma ServiceForm(pad: string, name: string, q: string)
    requires IsGap(pad) && IsWrap(q) && IsName(name, q)
    ensures FormOf("service" + (pad + Wrapped(name, q))) == Service(name)
  {
    GivenArgument("service", pad, name, q);
    assert ("service" + (pad + Wrapped(name, q)))[7] == pad[0] && pad[0] != 's';
    NotPrefix("services", "service" + (pad + Wrapped(name, q)), 7);
  }

  lemma SecretIsNoService(rest: string)
    ensures !("services" <= "secret" + rest) && !("service" <= "secret" + rest)
  {
    NotPrefixOf("services", "secret", rest, 2);
    NotPrefixOf("service", "secret", rest, 2);
  }

  lemma ReadAsSecret(expr: string, name: string)
    requires !("services" <= expr) && !("service" <= expr) && StripFunc(expr, "secret") == Some(name)
    ensures FormOf(expr) == Secret(name)
  {
  }

  lemma SecretForm(pad: string, name: string, q: string)
    requires IsGap(pad) && IsWrap(q) && IsName(name, q)
    ensures FormOf("secret" + (pad + Wrapped(name, q))) == Secret(name)
  {
    GivenArgument("secret", pad, name, q);
    SecretIsNoService(pad + Wrapped(name, q));
    ReadAsSecret("secret" + (pad + Wrapped(name, q)), name);
  }

  /** The documented function forms, with the name in either kind of quotes or bare: `service` gives the
      first address of the service, `services` a text that splits at its commas into all of them, and
      `secret` the secret; each is empty when there is nothing to give. */
  lemma DocumentedForms(pad: string, name: string, q: string, ctx: Context)
    requires IsGap(pad) && IsWrap(q) && IsName(name, q)
    ensures Evaluate("service" + (pad + Wrapped(name, q)), ctx) ==
            if name in ctx.services && ctx.services[name] != [] then ctx.services[name][0] else ""
    ensures Evaluate("secret" + (pad + Wrapped(name, q)), ctx) ==
            if name in ctx.secrets then ctx.secrets[name] else ""
    ensures var all := Evaluate("services" + (pad + Wrapped(name, q)), ctx);
            if name in ctx.services && ctx.services[name] != []
            then Commaless(ctx.services[name]) ==> SplitBy(all, ",") == ctx.services[name]
            else all == ""
  {
    ServicesForm(pad, name, q);
    ServiceForm(pad, name, q);
    SecretForm(pad, name, q);
    if name in ctx.services && ctx.services[name] != [] && Commaless(ctx.services[name]) {
      SplitJoin(ctx.services[name], ',');
    }
  }

  predicate Commaless(parts: seq<string>) {
    forall i :: 0 <= i < |parts| ==> ',' !in parts[i]
  }

  lemma NotFunction(expr: string)
    requires expr != "" && expr[0] != 's'
    ensures !("services" <= expr) && !("service" <= expr) && !("secret" <= expr)
  {
    NotPrefix("services", expr, 0);
    NotPrefix("service", expr, 0);
    NotPrefix("secret", expr, 0);
  }

  /** A key after a meta or env prefix is looked up there and nowhere else. */
  lemma DottedForms(key: string, ctx: Context)
    ensures Evaluate("meta." + key, ctx) == if key in ctx.meta then ctx.meta[key] else ""
    ensures Evaluate("env." + key, ctx) == if key in ctx.env then ctx.env[key] else ""
  {
    NotFunction("meta." + key);
    NotFunction("env." + key);
    NotPrefix("meta.", "env." + key, 0);
    assert ("meta." + key)[5..] == key && ("env." + key)[4..] == key;
  }

  /** A key is looked up in the metadata and then the environment, as documented, if and only if it
      has none of the other forms. */
  lemma BareKeyIff(expr: string)
    ensures (forall ctx :: Evaluate(expr, ctx) == BareKey(expr, ctx)) <==> FormOf(expr).Bare?
  {
    if !FormOf(expr).Bare? {
      var ctx := Context(map[], map[], map[expr := "x"], map[]);
      assert BareKey(expr, ctx) == "x";
      assert Evaluate(expr, ctx) == "";
    }
  }

  /** For instance, `{{ secretary }}` reads the secret "ary". */
  lemma SecretaryIsASecret()
    ensures FormOf("secret" + "ary") == Secret("ary")
  {
    NotPrefix("services", "secret" + "ary", 2);
    NotPrefix("service", "secret" + "ary", 2);
    DropPrefix("secret", "ary");
    LeadingIs("ary", Whitespace, 0);
    TrimIs("", "ary", "", Only('"'));
    TrimIs("", "ary", "", Only('\''));
    assert "" + "ary" + "" == "ary" && "ary"[0..] == "ary";
  }
}
