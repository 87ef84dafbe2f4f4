/**
 * The `styles` template helper: given the owning component or controller and
 * a string of semantic class names, it returns the class-attribute string
 * built from the owner's compiled style map.
 *
 *   - If the owner carries no `styles` attribute, one diagnostic is reported
 *     and the result is the empty string.
 *   - Otherwise the string is split on single spaces, every token is looked
 *     up in the map (a missing token, or one mapped to the empty string,
 *     reports a diagnostic naming it and contributes the empty string), and
 *     the contributions are joined with single spaces in token order.
 *
 * Console output is modelled as the sequence of diagnostics the call reports,
 * in the order they are reported.
 */
module StylesHelper {
  import opened Text

  /** The owner's `styles` attribute as the helper sees it. */
  datatype StylesAttr =
      /** No owner, or an owner without the attribute (`typeof` gives 'undefined'). */
    | Undefined
      /** An attribute that is set but falsy (`null`, `false`, `0`, `''`): it passes the
          `typeof` guard, and the truthiness test on it fails for every token. */
    | Falsy
      /** A compiled style map: semantic class name to emitted class name. */
    | Map(classes: map<string, string>)

  /** What the helper writes to the error console. */
  datatype Diagnostic =
    | NoStylesAssigned
    | MissingClass(name: string)

  /** The helper's result together with the diagnostics it reported. */
  datatype Resolution = Resolution(classString: string, diagnostics: seq<Diagnostic>)

  /** What the per-token pass produces before the join. */
  datatype Pass = Pass(slots: seq<string>, diagnostics: seq<Diagnostic>)

  /** A token resolves when the map holds it with a truthy (non-empty) value. */
  predicate Resolves(styles: StylesAttr, name: string) {
    styles.Map? && name in styles.classes && styles.classes[name] != ""
  }

  const NoStylesText: string :=
    "Import and assign your styles to your component class or controller class"
  const MissingPrefix: string := "The class or id named '"
  const MissingSuffix: string := "' does not exist"

  /** The console text of a diagnostic. */
  function Message(d: Diagnostic): (text: string)
    ensures d.MissingClass? ==>
      |text| == |MissingPrefix| + |d.name| + |MissingSuffix| &&
      text[|MissingPrefix|..|MissingPrefix| + |d.name|] == d.name
  {
    match d
    case NoStylesAssigned => NoStylesText
    case MissingClass(name) => MissingPrefix + name + MissingSuffix
  }

  /** Different diagnostics never print the same text: a message names its token. */
  lemma MessageIdentifiesDiagnostic(d1: Diagnostic, d2: Diagnostic)
    requires Message(d1) == Message(d2)
    ensures d1 == d2
  {
  }

  /** The callback given to `map`: one token's contribution and its diagnostics. */
  function ResolveName(styles: StylesAttr, name: string): (r: (string, seq<Diagnostic>))
    ensures (r.0 != "") == Resolves(styles, name)
    ensures r.0 != "" ==> r.0 == styles.classes[name]
    ensures r.1 == (if r.0 == "" then [MissingClass(name)] else [])
  {
    if Resolves(styles, name) then (styles.classes[name], [])
    else ("", [MissingClass(name)])
  }

  /** `names.map(callback)`, collecting what each call reports, in order. */
  function ResolveEach(styles: StylesAttr, names: seq<string>): (p: Pass)
    ensures |p.slots| == |names|
    ensures |p.diagnostics| <= |names|
    ensures forall j :: 0 <= j < |p.diagnostics| ==> p.diagnostics[j].MissingClass?
  {
    if names == [] then Pass([], [])
    else
      var (slot, reported) := ResolveName(styles, names[0]);
      var rest := ResolveEach(styles, names[1..]);
      Pass([slot] + rest.slots, reported + rest.diagnostics)
  }

  /** The helper's `compute`. */
  function Compute(styles: StylesAttr, classNames: string): (r: Resolution)
    ensures styles.Undefined? ==> r.classString == "" && r.diagnostics == [NoStylesAssigned]
    ensures !styles.Undefined? ==> NoStylesAssigned !in r.diagnostics
    ensures !styles.Undefined? ==> |r.diagnostics| <= CountSpaces(classNames) + 1
  {
    if styles.Undefined? then Resolution("", [NoStylesAssigned])
    else
      var p := ResolveEach(styles, Split(classNames));
      SplitCount(classNames);
      Resolution(Join(p.slots), p.diagnostics)
  }

  // ----- Reference definitions, stated per position rather than by recursion

  /** The slot each token should fill: its emitted name, or empty when it does not resolve. */
  function Expected(styles: StylesAttr, tokens: seq<string>): seq<string> {
    seq(|tokens|, i requires 0 <= i < |tokens| =>
      if Resolves(styles, tokens[i]) then styles.classes[tokens[i]] else "")
  }

  /** The tokens that do not resolve, in order, repeats kept. */
  function Unresolved(styles: StylesAttr, tokens: seq<string>): seq<string> {
    if tokens == [] then []
    else (if Resolves(styles, tokens[0]) then [] else [tokens[0]]) + Unresolved(styles, tokens[1..])
  }

  /** One MissingClass diagnostic per name, in order. */
  function Reports(names: seq<string>): seq<Diagnostic> {
    seq(|names|, j requires 0 <= j < |names| => MissingClass(names[j]))
  }

  // ----- The per-token pass against the reference definitions

  lemma {:induction false} ResolveEachMeetsReference(styles: StylesAttr, names: seq<string>)
    ensures ResolveEach(styles, names).slots == Expected(styles, names)
    ensures ResolveEach(styles, names).diagnostics == Reports(Unresolved(styles, names))
  {
    if names != [] {
      ResolveEachMeetsReference(styles, names[1..]);
      var p := ResolveEach(styles, names);
      var rest := ResolveEach(styles, names[1..]);
      assert p.slots == [ResolveName(styles, names[0]).0] + rest.slots;
      assert p.diagnostics == ResolveName(styles, names[0]).1 + rest.diagnostics;
      var head := if Resolves(styles, names[0]) then [] else [names[0]];
      assert Reports(head + Unresolved(styles, names[1..]))
          == Reports(head) + Reports(Unresolved(styles, names[1..]));
    }
  }

  /** Each token occurrence that does not resolve is reported exactly once; one that resolves never is. */
  lemma {:induction false} UnresolvedCounts(styles: StylesAttr, tokens: seq<string>, t: string)
    ensures multiset(Unresolved(styles, tokens))[t] ==
      if Resolves(styles, t) then 0 else multiset(tokens)[t]
  {
    if tokens != [] {
      UnresolvedCounts(styles, tokens[1..], t);
      assert tokens == [tokens[0]] + tokens[1..];
      assert multiset(tokens) == multiset([tokens[0]]) + multiset(tokens[1..]);
    }
  }

  /** Nothing resolves against a falsy attribute or an empty map. */
  lemma {:induction false} UnresolvedAll(styles: StylesAttr, tokens: seq<string>)
    requires styles.Falsy? || (styles.Map? && styles.classes == map[])
    ensures Unresolved(styles, tokens) == tokens
  {
    if tokens != [] {
      UnresolvedAll(styles, tokens[1..]);
      assert [tokens[0]] + tokens[1..] == tokens;
    }
  }

  // ----- Properties of Compute

  /** With a styles attribute present: the slots in token order, joined with single spaces,
      and one report per unresolved token, in token order. */
  lemma ComputeResolvesTokens(styles: StylesAttr, classNames: string)
    requires !styles.Undefined?
    ensures Compute(styles, classNames).classString == Join(Expected(styles, Split(classNames)))
    ensures Compute(styles, classNames).diagnostics == Reports(Unresolved(styles, Split(classNames)))
  {
    ResolveEachMeetsReference(styles, Split(classNames));
  }

  /** Every occurrence of a missing token is reported once, naming it; a resolving token never is. */
  lemma ComputeReportsEachMissingToken(styles: StylesAttr, classNames: string, t: string)
    requires !styles.Undefined?
    ensures multiset(Compute(styles, classNames).diagnostics)[MissingClass(t)] ==
      if Resolves(styles, t) then 0 else multiset(Split(classNames))[t]
  {
    var u := Unresolved(styles, Split(classNames));
    ComputeResolvesTokens(styles, classNames);
    UnresolvedCounts(styles, Split(classNames), t);
    ReportsCount(u, t);
  }

  lemma {:induction false} ReportsCount(names: seq<string>, t: string)
    ensures multiset(Reports(names))[MissingClass(t)] == multiset(names)[t]
  {
    if names != [] {
      ReportsCount(names[1..], t);
      assert names == [names[0]] + names[1..];
      assert Reports(names) == [MissingClass(names[0])] + Reports(names[1..]);
      assert multiset(Reports(names)) == multiset([MissingClass(names[0])]) + multiset(Reports(names[1..]));
      assert multiset(names) == multiset([names[0]]) + multiset(names[1..]);
    }
  }

  /** A single token with a non-empty emitted name resolves to exactly that name, silently;
      a single token that does not resolve gives the empty string and one report. */
  lemma ComputeSingleToken(styles: StylesAttr, k: string)
    requires !styles.Undefined? && SpaceFree(k)
    ensures Resolves(styles, k) ==> Compute(styles, k) == Resolution(styles.classes[k], [])
    ensures !Resolves(styles, k) ==> Compute(styles, k) == Resolution("", [MissingClass(k)])
  {
    SplitWord(k);
    ComputeResolvesTokens(styles, k);
    assert Unresolved(styles, [k]) == (if Resolves(styles, k) then [] else [k]) + Unresolved(styles, []);
  }

  /** The output has one separator per separator in the input, plus whatever spaces the
      emitted names themselves hold: a missing token leaves its slot empty but keeps its spaces. */
  lemma ComputeSeparators(styles: StylesAttr, classNames: string)
    requires !styles.Undefined?
    ensures CountSpaces(Compute(styles, classNames).classString) ==
      CountSpaces(classNames) + SumSpaces(Expected(styles, Split(classNames)))
  {
    ComputeResolvesTokens(styles, classNames);
    JoinCount(Expected(styles, Split(classNames)));
    SplitCount(classNames);
  }

  /** Emitted names free of spaces. */
  predicate ValuesSpaceFree(m: map<string, string>) {
    forall k :: k in m ==> SpaceFree(m[k])
  }

  /** With space-free emitted names, splitting the output gives back exactly one slot per
      input token, in order, so the output has as many spaces as the input. */
  lemma ComputeKeepsSlots(m: map<string, string>, classNames: string)
    requires ValuesSpaceFree(m)
    ensures Split(Compute(Map(m), classNames).classString) == Expected(Map(m), Split(classNames))
    ensures CountSpaces(Compute(Map(m), classNames).classString) == CountSpaces(classNames)
  {
    var e := Expected(Map(m), Split(classNames));
    assert forall i :: 0 <= i < |e| ==> SpaceFree(e[i]);
    ComputeResolvesTokens(Map(m), classNames);
    SplitJoin(e);
    SumSpacesFree(e);
    ComputeSeparators(Map(m), classNames);
  }

  /** Two consecutive spaces make an empty token, which is reported as missing unless
      the map gives the empty name a non-empty value. */
  lemma ComputeDoubleSpace(styles: StylesAttr, a: string, b: string)
    requires !styles.Undefined?
    ensures Split(a + "  " + b) == Split(a) + [""] + Split(b)
    ensures !Resolves(styles, "") ==> MissingClass("") in Compute(styles, a + "  " + b).diagnostics
    ensures Resolves(styles, "") ==>
      Expected(styles, Split(a + "  " + b))[|Split(a)|] == styles.classes[""]
  {
    SplitDoubleSpace(a, b);
    var tokens := Split(a + "  " + b);
    assert tokens[|Split(a)|] == "";
    ComputeReportsEachMissingToken(styles, a + "  " + b, "");
    assert "" in multiset(tokens);
  }

  /** A falsy attribute behaves as an empty map: every token is missing,
      the output is only the separators, and there is one report per token. */
  lemma ComputeFalsyStyles(classNames: string)
    ensures Compute(Falsy, classNames) == Compute(Map(map[]), classNames)
    ensures Compute(Falsy, classNames).diagnostics == Reports(Split(classNames))
    ensures |Compute(Falsy, classNames).diagnostics| == CountSpaces(classNames) + 1
    ensures |Compute(Falsy, classNames).classString| == CountSpaces(classNames)
    ensures SpaceFree(classNames) ==> Compute(Falsy, classNames).classString == ""
  {
    var tokens := Split(classNames);
    var e := Expected(Falsy, tokens);
    var r := Compute(Falsy, classNames);
    assert r.classString == Join(e) && r.diagnostics == Reports(tokens) by {
      ComputeResolvesTokens(Falsy, classNames);
      UnresolvedAll(Falsy, tokens);
    }
    assert Compute(Map(map[]), classNames) == r by {
      ComputeResolvesTokens(Map(map[]), classNames);
      UnresolvedAll(Map(map[]), tokens);
      assert Expected(Map(map[]), tokens) == e;
    }
    SplitCount(classNames);
    assert |Join(e)| == |tokens| - 1 by {
      EmptySlotsJoin(e);
    }
  }

  /** Joining only empty slots leaves nothing but separators. */
  lemma {:induction false} EmptySlotsJoin(slots: seq<string>)
    requires |slots| >= 1
    requires forall i :: 0 <= i < |slots| ==> slots[i] == ""
    ensures |Join(slots)| == |slots| - 1
  {
    if |slots| > 1 {
      EmptySlotsJoin(slots[1..]);
    }
  }

  // ----- Worked examples

  /** Three tokens of which only the middle one is missing: its slot stays empty between
      two separators, so the output holds a double space. */
  lemma MiddleTokenMissing(styles: StylesAttr, a: string, b: string, c: string)
    requires SpaceFree(a) && SpaceFree(b) && SpaceFree(c)
    requires Resolves(styles, a) && !Resolves(styles, b) && Resolves(styles, c)
    ensures Compute(styles, a + " " + b + " " + c) ==
      Resolution(styles.classes[a] + "  " + styles.classes[c], [MissingClass(b)])
  {
    var input, tokens := a + " " + b + " " + c, [a, b, c];
    var x, z := styles.classes[a], styles.classes[c];
    var r := Compute(styles, input);
    assert Split(input) == tokens by {
      SplitThreeWords(a, b, c);
    }
    assert r.classString == Join([x, "", z]) by {
      ComputeResolvesTokens(styles, input);
      assert Expected(styles, tokens) == [x, "", z];
    }
    assert r.diagnostics == [MissingClass(b)] by {
      ComputeResolvesTokens(styles, input);
      assert tokens[1..] == [b, c] && [b, c][1..] == [c] && [c][1..] == [];
      assert Unresolved(styles, [c]) == [];
      assert Unresolved(styles, [b, c]) == [b] + Unresolved(styles, [c]);
      assert Unresolved(styles, tokens) == [b];
    }
    assert Join([x, "", z]) == x + "  " + z by {
      JoinCons(x, ["", z]);
      JoinCons("", [z]);
    }
  }

  /** A resolved token followed by a missing one: the output ends in a stray space. */
  lemma TrailingTokenMissing(styles: StylesAttr, a: string, b: string)
    requires SpaceFree(a) && SpaceFree(b)
    requires Resolves(styles, a) && !Resolves(styles, b)
    ensures Compute(styles, a + " " + b) == Resolution(styles.classes[a] + " ", [MissingClass(b)])
  {
    assert a + " " + b == a + [Space] + b;
    SplitAtSpace(a, b);
    SplitWord(a); SplitWord(b);
    var tokens := [a, b];
    assert Split(a + " " + b) == tokens;
    assert tokens[1..] == [b] && tokens[1..][1..] == [];
    var pb := ResolveEach(styles, [b]);
    assert pb == Pass([""], [MissingClass(b)]);
    var p := ResolveEach(styles, tokens);
    assert p == Pass([styles.classes[a]] + pb.slots, [] + pb.diagnostics);
    assert p.slots == [styles.classes[a], ""];
    JoinCons(styles.classes[a], [""]);
  }

  /** An empty class-name string is one empty token: empty output and one report. */
  lemma ExampleEmptyClassNames(m: map<string, string>)
    requires "" !in m
    ensures Compute(Map(m), "") == Resolution("", [MissingClass("")])
  {
    ComputeSingleToken(Map(m), "");
  }
}
