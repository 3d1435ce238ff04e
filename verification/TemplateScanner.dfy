/**
 Replacing `{{ name }}` in a text by values: a scanner with four states, and what its output is
 for every text.
 */
module TemplateScanner {

  datatype State = Outside | StartBrace | InVar | EndBrace

  /** The state of the scan, what has been written, and the name read so far. */
  datatype Scan = Scan(state: State, result: string, varName: string)

  function ValueOf(values: map<string, string>, name: string): string {
    if name in values then values[name] else ""
  }

  function Step(m: Scan, x: char, values: map<string, string>): Scan {
    match m.state
    case Outside => if x == '{' then m.(state := StartBrace) else m.(result := m.result + [x])
    case StartBrace => if x == '{' then m.(state := InVar) else Scan(Outside, m.result + ['{', x], m.varName)
    case InVar => if x == '}' then m.(state := EndBrace) else if x == ' ' then m else m.(varName := m.varName + [x])
    case EndBrace =>
      if x == '}' then Scan(Outside, m.result + ValueOf(values, m.varName), "")
      else Scan(Outside, m.result + ['}', x], m.varName)
  }

  function Run(m: Scan, source: string, values: map<string, string>): Scan
    decreases |source|
  {
    if source == [] then m else Run(Step(m, source[0], values), source[1..], values)
  }

  lemma {:induction false} RunAppend(m: Scan, a: string, b: string, values: map<string, string>)
    ensures Run(m, a + b, values) == Run(Run(m, a, values), b, values)
    decreases |a|
  {
    hide Step;
    if a == [] {
      assert a + b == b;
    } else {
      RunAppend(Step(m, a[0], values), a[1..], b, values);
      assert (a + b)[1..] == a[1..] + b;
    }
  }

  method ReplaceVars(source: string, values: map<string, string>) returns (result: string)
    ensures result == Run(Scan(Outside, "", ""), source, values).result
  {
    var varName, state := "", Outside;
    result := "";
    assert source[0..] == source;
    for i := 0 to |source|
      invariant Run(Scan(state, result, varName), source[i..], values) == Run(Scan(Outside, "", ""), source, values)
    {
      var x := source[i];
      ghost var m := Scan(state, result, varName);
      assert source[i..][1..] == source[i + 1..] && source[i..] != [];
      match state {
        case Outside =>
          if x == '{' {
            state := StartBrace;
          } else {
            result := result + [x];
          }
        case StartBrace =>
          if x == '{' {
            state := InVar;
          } else {
            state := Outside;
            result := result + "{";
            result := result + [x];
          }
        case InVar =>
          if x != ' ' && x != '}' {
            varName := varName + [x];
          }
          if x == '}' {
            state := EndBrace;
          }
        case EndBrace =>
          if x == '}' {
            if varName in values {
              result := result + values[varName];
            }
            varName := "";
            state := Outside;
          } else {
            state := Outside;
            result := result + "}";
            result := result + [x];
          }
      }
      assert m.result + ['{', x] == m.result + "{" + [x] && m.result + ['}', x] == m.result + "}" + [x] && m.result + "" == m.result;
      assert Scan(state, result, varName) == Step(m, x, values);
    }
  }

  // ----- What a text consists of -----

  /** Plain text, a reference, or one that is closed by a single brace. */
  datatype Part = Text(text: string) | Var(raw: string) | Broken(raw: string, next: char)

  ghost predicate Good(p: Part) {
    match p
    case Text(text) => forall i | 0 <= i < |text| && text[i] == '{' :: i + 1 < |text| && text[i + 1] != '{'
    case Var(raw) => '}' !in raw
    case Broken(raw, next) => '}' !in raw && next != '}'
  }

  function Printed(p: Part): string {
    match p
    case Text(text) => text
    case Var(raw) => "{{" + raw + "}}"
    case Broken(raw, next) => "{{" + raw + "}" + [next]
  }

  function PrintedAll(parts: seq<Part>): string {
    if parts == [] then "" else Printed(parts[0]) + PrintedAll(parts[1..])
  }

  /** Spaces in references do not count. */
  function NameOf(raw: string): string {
    if raw == [] then "" else (if raw[0] == ' ' then "" else [raw[0]]) + NameOf(raw[1..])
  }

  /** What a part comes out as: the value of a reference is not looked at again. */
  function Output(p: Part, values: map<string, string>, carried: string): string {
    match p
    case Text(text) => text
    case Var(raw) =>
      var name := carried + NameOf(raw);
      if name in values then values[name] else ""
    case Broken(raw, next) => ['}', next]
  }

  /** The name of a broken reference is not forgotten; it becomes the start of the next name. */
  function CarriedOn(p: Part, carried: string): string {
    match p
    case Text(_) => carried
    case Var(_) => ""
    case Broken(raw, _) => carried + NameOf(raw)
  }

  function Expanded(parts: seq<Part>, values: map<string, string>, carried: string): string {
    if parts == [] then ""
    else Output(parts[0], values, carried) + Expanded(parts[1..], values, CarriedOn(parts[0], carried))
  }

  function CarriedAfter(parts: seq<Part>, carried: string): string {
    if parts == [] then carried else CarriedAfter(parts[1..], CarriedOn(parts[0], carried))
  }

  lemma {:induction false} RunText(m: Scan, text: string, values: map<string, string>)
    requires m.state == Outside && Good(Text(text))
    ensures Run(m, text, values) == m.(result := m.result + text)
    decreases |text|
  {
    if text == [] {
      assert m.result + text == m.result;
    } else if text[0] == '{' {
      var rest := text[2..];
      assert text[1..][1..] == rest;
      assert Good(Text(rest)) by {
        assert forall i | 0 <= i < |rest| :: rest[i] == text[i + 2];
      }
      RunText(m.(result := m.result + ['{', text[1]]), rest, values);
      assert Run(m, text, values) == Run(Step(Step(m, '{', values), text[1], values), rest, values);
      assert m.result + ['{', text[1]] + rest == m.result + text;
    } else {
      assert Good(Text(text[1..])) by {
        assert forall i | 0 <= i < |text| - 1 :: text[1..][i] == text[i + 1];
      }
      RunText(m.(result := m.result + [text[0]]), text[1..], values);
      assert m.result + [text[0]] + text[1..] == m.result + text;
    }
  }

  lemma {:induction false} RunName(m: Scan, raw: string, values: map<string, string>)
    requires m.state == InVar && '}' !in raw
    ensures Run(m, raw, values) == m.(varName := m.varName + NameOf(raw))
    decreases |raw|
  {
    if raw == [] {
      assert m.varName + "" == m.varName;
    } else {
      var part := if raw[0] == ' ' then "" else [raw[0]];
      var next := m.(varName := m.varName + part);
      assert NameOf(raw) == part + NameOf(raw[1..]);
      NameStep(m, raw[0], values);
      assert Run(m, raw, values) == Run(next, raw[1..], values);
      hide Step, Run, NameOf;
      RunName(next, raw[1..], values);
      assert m.varName + part + NameOf(raw[1..]) == m.varName + (part + NameOf(raw[1..]));
    }
  }

  lemma NameStep(m: Scan, x: char, values: map<string, string>)
    requires m.state == InVar && x != '}'
    ensures Step(m, x, values) == m.(varName := m.varName + if x == ' ' then "" else [x])
  {
    assert m.varName + "" == m.varName;
  }

  lemma RunOpened(m: Scan, raw: string, values: map<string, string>)
    requires m.state == Outside && '}' !in raw
    ensures Run(m, "{{" + raw, values) == Scan(InVar, m.result, m.varName + NameOf(raw))
  {
    RunAppend(m, "{{", raw, values);
    RunTwo(m, '{', '{', values);
    assert ['{', '{'] == "{{";
    RunName(m.(state := InVar), raw, values);
  }

  lemma RunTwo(m: Scan, x: char, y: char, values: map<string, string>)
    ensures Run(m, [x, y], values) == Step(Step(m, x, values), y, values)
  {
    hide Step;
    var next := Step(m, x, values);
    assert [x, y][1..] == [y] && [y][1..] == [];
    assert Run(next, [y], values) == Run(Step(next, y, values), [], values);
  }

  lemma RunReference(m: Scan, raw: string, last: char, values: map<string, string>)
    requires m.state == Outside && '}' !in raw
    ensures Run(m, "{{" + raw + "}" + [last], values) ==
            if last == '}' then Scan(Outside, m.result + ValueOf(values, m.varName + NameOf(raw)), "")
            else Scan(Outside, m.result + ['}', last], m.varName + NameOf(raw))
  {
    assert "{{" + raw + "}" + [last] == "{{" + raw + ['}', last];
    RunAppend(m, "{{" + raw, ['}', last], values);
    RunOpened(m, raw, values);
    RunTwo(Scan(InVar, m.result, m.varName + NameOf(raw)), '}', last, values);
  }

  lemma RunPart(m: Scan, p: Part, values: map<string, string>)
    requires m.state == Outside && Good(p)
    ensures Run(m, Printed(p), values) == Scan(Outside, m.result + Output(p, values, m.varName), CarriedOn(p, m.varName))
  {
    hide Step, NameOf;
    match p
    case Text(text) => RunText(m, text, values);
    case Var(raw) =>
      RunReference(m, raw, '}', values);
      assert Printed(p) == "{{" + raw + "}" + ['}'];
    case Broken(raw, next) => RunReference(m, raw, next, values);
  }

  /** The scanner gets through parts as if each had been dealt with on its own. */
  lemma {:induction false} RunParts(m: Scan, parts: seq<Part>, values: map<string, string>)
    requires m.state == Outside && forall p | p in parts :: Good(p)
    ensures Run(m, PrintedAll(parts), values) ==
            Scan(Outside, m.result + Expanded(parts, values, m.varName), CarriedAfter(parts, m.varName))
    decreases |parts|
  {
    hide Output, CarriedOn, Good, Printed;
    if parts == [] {
      assert m.result + "" == m.result;
    } else {
      var p := parts[0];
      var next := Scan(Outside, m.result + Output(p, values, m.varName), CarriedOn(p, m.varName));
      RunAppend(m, Printed(p), PrintedAll(parts[1..]), values);
      RunPart(m, p, values);
      RunParts(next, parts[1..], values);
      assert next.result + Expanded(parts[1..], values, next.varName) == m.result + Expanded(parts, values, m.varName);
    }
  }

  // ----- Templates -----

  lemma {:induction false} NameWithoutSpaces(name: string)
    requires ' ' !in name
    ensures NameOf(name + " ") == name
  {
    if name == [] {
      assert name + " " == " ";
    } else {
      NameWithoutSpaces(name[1..]);
      assert (name + " ")[1..] == name[1..] + " ";
    }
  }

  /** A reference as it is usually written. */
  function Reference(name: string): Part {
    Var(" " + name + " ")
  }

  /** A piece of text, or the name of a value. */
  datatype Piece = Plain(text: string) | Named(name: string)

  ghost predicate Usual(piece: Piece) {
    match piece
    case Plain(text) => Good(Text(text))
    case Named(name) => '{' !in name && '}' !in name && ' ' !in name
  }

  function Template(pieces: seq<Piece>): seq<Part> {
    if pieces == [] then []
    else [if pieces[0].Plain? then Text(pieces[0].text) else Reference(pieces[0].name)] + Template(pieces[1..])
  }

  /** The pieces with every name replaced by its value, or by nothing if it has none. */
  function Substituted(pieces: seq<Piece>, values: map<string, string>): string {
    if pieces == [] then ""
    else
      var piece := pieces[0];
      (if piece.Plain? then piece.text else if piece.name in values then values[piece.name] else "") + Substituted(pieces[1..], values)
  }

  lemma {:induction false} TemplateExpands(pieces: seq<Piece>, values: map<string, string>)
    requires forall p | p in pieces :: Usual(p)
    ensures Expanded(Template(pieces), values, "") == Substituted(pieces, values)
    ensures forall p | p in Template(pieces) :: Good(p)
  {
    hide Good, NameOf;
    if pieces != [] {
      TemplateExpands(pieces[1..], values);
      assert Usual(pieces[0]);
      if pieces[0].Named? {
        ReferenceIs(pieces[0].name);
      }
      assert Template(pieces)[1..] == Template(pieces[1..]);
    }
  }

  lemma ReferenceIs(name: string)
    requires '}' !in name && ' ' !in name
    ensures "" + NameOf(Reference(name).raw) == name && Good(Reference(name))
  {
    NameWithoutSpaces(name);
    assert (" " + name + " ")[1..] == name + " ";
    assert NameOf(" " + name + " ") == name;
    assert "" + name == name;
    ReferenceIsGood(name);
    hide Good;
  }

  lemma ReferenceIsGood(name: string)
    requires '}' !in name
    ensures Good(Reference(name))
  {
  }

  /** A text made of pieces and `{{ name }}` references comes out with the values in their places. */
  lemma TemplateIsSubstituted(pieces: seq<Piece>, values: map<string, string>)
    requires forall p | p in pieces :: Usual(p)
    ensures Run(Scan(Outside, "", ""), PrintedAll(Template(pieces)), values).result == Substituted(pieces, values)
  {
    TemplateExpands(pieces, values);
    RunParts(Scan(Outside, "", ""), Template(pieces), values);
    assert "" + Expanded(Template(pieces), values, "") == Expanded(Template(pieces), values, "");
  }

  // ----- Every text consists of such parts -----

  function FirstClose(s: string): (k: nat)
    ensures k <= |s| && '}' !in s[..k] && (k < |s| ==> s[k] == '}')
  {
    if s == [] || s[0] == '}' then 0 else 1 + FirstClose(s[1..])
  }

  /** The parts of a text, and what is unfinished at its end. */
  function PartsOf(source: string): (seq<Part>, string)
    decreases |source|
  {
    if source == [] then ([], "")
    else if source[0] != '{' then Then(Text(source[..1]), PartsOf(source[1..]))
    else if |source| == 1 then ([], source)
    else if source[1] != '{' then Then(Text(source[..2]), PartsOf(source[2..]))
    else
      var close := 2 + FirstClose(source[2..]);
      if close + 1 >= |source| then ([], source)
      else if source[close + 1] == '}' then Then(Var(source[2..close]), PartsOf(source[close + 2..]))
      else Then(Broken(source[2..close], source[close + 1]), PartsOf(source[close + 2..]))
  }

  function Then(p: Part, rest: (seq<Part>, string)): (seq<Part>, string) {
    ([p] + rest.0, rest.1)
  }

  /** A single brace, or a reference that is not closed. */
  ghost predicate Unfinished(tail: string) {
    tail == "" || tail == "{" || exists raw: string :: '}' !in raw && (tail == "{{" + raw || tail == "{{" + raw + "}")
  }

  ghost predicate Covers(source: string, split: (seq<Part>, string)) {
    source == PrintedAll(split.0) + split.1 && Unfinished(split.1) && forall p | p in split.0 :: Good(p)
  }

  lemma ThenCovers(source: string, p: Part, rest: string, split: (seq<Part>, string))
    requires source == Printed(p) + rest && Good(p) && Covers(rest, split)
    ensures Covers(source, Then(p, split))
  {
    hide Good, Printed, Unfinished;
    assert ([p] + split.0)[1..] == split.0;
    assert source == Printed(p) + PrintedAll(split.0) + split.1;
  }

  lemma {:induction false} PartsCover(source: string)
    ensures Covers(source, PartsOf(source))
    decreases |source|
  {
    hide Covers;
    if source == [] || source == "{" {
      TailCovers(source);
    } else if source[0] != '{' {
      PartsCover(source[1..]);
      assert source == Printed(Text(source[..1])) + source[1..];
      ThenCovers(source, Text(source[..1]), source[1..], PartsOf(source[1..]));
    } else if source[1] != '{' {
      PartsCover(source[2..]);
      assert source == Printed(Text(source[..2])) + source[2..];
      ThenCovers(source, Text(source[..2]), source[2..], PartsOf(source[2..]));
    } else {
      assert source[..2] == "{{";
      ReferenceCovers(source);
      hide Printed;
      var close := 2 + FirstClose(source[2..]);
      var rest := if close + 1 < |source| then source[close + 2..] else "";
      if close + 1 >= |source| {
        TailCovers(source);
      } else if source[close + 1] == '}' {
        PartsCover(rest);
        ThenCovers(source, Var(source[2..close]), rest, PartsOf(rest));
      } else {
        PartsCover(rest);
        ThenCovers(source, Broken(source[2..close], source[close + 1]), rest, PartsOf(rest));
      }
    }
  }

  lemma TailCovers(tail: string)
    requires Unfinished(tail)
    ensures Covers(tail, ([], tail))
  {
  }

  lemma SplitAt(s: string, k: nat)
    requires k < |s|
    ensures s[k..] == [s[k]] + s[k + 1..]
  {
  }

  lemma ReferenceCovers(source: string)
    requires |source| >= 2 && source[..2] == "{{"
    ensures var close := 2 + FirstClose(source[2..]);
            && '}' !in source[2..close]
            && (close == |source| ==> source == "{{" + source[2..close])
            && (close + 1 == |source| ==> source == "{{" + source[2..close] + "}")
            && (close + 1 < |source| ==>
                source == (if source[close + 1] == '}' then Printed(Var(source[2..close]))
                           else Printed(Broken(source[2..close], source[close + 1]))) + source[close + 2..])
  {
    var close := 2 + FirstClose(source[2..]);
    var raw := source[2..close];
    hide FirstClose;
    assert raw == source[2..][..close - 2];
    assert close < |source| ==> source[2..][close - 2] == source[close];
    assert source == "{{" + raw + source[close..];
    if close < |source| {
      SplitAt(source, close);
    }
    if close + 1 < |source| {
      var next, rest := source[close + 1], source[close + 2..];
      SplitAt(source, close + 1);
      assert "{{" + raw + ("}" + ([next] + rest)) == "{{" + raw + "}" + [next] + rest;
      assert source == "{{" + raw + "}" + [next] + rest;
      assert "{{" + raw + "}" + ['}'] == "{{" + raw + "}}";
    }
  }

  lemma RunUnfinished(m: Scan, tail: string, values: map<string, string>)
    requires m.state == Outside && Unfinished(tail)
    ensures Run(m, tail, values).result == m.result
  {
    if tail != "" && tail != "{" {
      var raw :| '}' !in raw && (tail == "{{" + raw || tail == "{{" + raw + "}");
      RunOpened(m, raw, values);
      if tail == "{{" + raw + "}" {
        RunAppend(m, "{{" + raw, "}", values);
      }
    }
  }

  /** For every text: what is unfinished at its end is dropped, and the rest is expanded part by part. */
  lemma EveryTextIsExpanded(source: string, values: map<string, string>)
    ensures Run(Scan(Outside, "", ""), source, values).result == Expanded(PartsOf(source).0, values, "")
  {
    var (parts, tail) := PartsOf(source);
    var m := Scan(Outside, "", "");
    PartsCover(source);
    assert source == PrintedAll(parts) + tail;
    RunAppend(m, PrintedAll(parts), tail, values);
    RunParts(m, parts, values);
    RunUnfinished(Run(m, PrintedAll(parts), values), tail, values);
    assert "" + Expanded(parts, values, "") == Expanded(parts, values, "");
  }

  /** The name of a reference that was closed by one brace gets into the next one. */
  lemma BrokenReferenceSpoilsNext()
    ensures Run(Scan(Outside, "", ""), "{{a}x{{b}}", map["b" := "value"]).result == "}x"
  {
    var parts := [Broken("a", 'x'), Var("b")];
    assert PrintedAll(parts[1..]) == "{{b}}";
    assert PrintedAll(parts) == "{{a}x{{b}}";
    RunParts(Scan(Outside, "", ""), parts, map["b" := "value"]);
    assert NameOf("a") == "a" && NameOf("b") == "b";
    assert "" + NameOf("a") + NameOf("b") == "ab";
  }

  // ----- When references get their own values -----

  /** The expansion in which every reference has the name it is written with. */
  function ExpandedApart(parts: seq<Part>, values: map<string, string>): string {
    if parts == [] then "" else Output(parts[0], values, "") + ExpandedApart(parts[1..], values)
  }

  /** A broken reference with a name, and a later reference with only text or broken ones in between. */
  ghost predicate Spoils(parts: seq<Part>, i: nat, j: nat) {
    && i < j < |parts| && parts[i].Broken? && NameOf(parts[i].raw) != "" && parts[j].Var?
    && forall m | i < m < j :: !parts[m].Var?
  }

  ghost predicate Spoiled(parts: seq<Part>) {
    exists i: nat, j: nat :: Spoils(parts, i, j)
  }

  /** The same, scanning on with a name carried from before. */
  predicate SpoiledFrom(parts: seq<Part>, carried: string) {
    if parts == [] then false
    else (parts[0].Var? && carried != "") || SpoiledFrom(parts[1..], CarriedOn(parts[0], carried))
  }

  predicate HasVar(parts: seq<Part>) {
    parts != [] && (parts[0].Var? || HasVar(parts[1..]))
  }

  /** The first reference of all. */
  ghost predicate FirstVar(parts: seq<Part>, j: nat) {
    j < |parts| && parts[j].Var? && forall m | 0 <= m < j :: !parts[m].Var?
  }

  lemma {:induction false} HasFirstVar(parts: seq<Part>) returns (j: nat)
    requires HasVar(parts)
    ensures FirstVar(parts, j)
  {
    if parts[0].Var? {
      j := 0;
    } else {
      j := HasFirstVar(parts[1..]);
      assert forall m | 0 < m < j + 1 :: parts[m] == parts[1..][m - 1];
      j := j + 1;
    }
  }

  lemma {:induction false} VarIsThere(parts: seq<Part>, j: nat)
    requires j < |parts| && parts[j].Var?
    ensures HasVar(parts)
  {
    if j > 0 {
      VarIsThere(parts[1..], j - 1);
    }
  }

  lemma SpoiledOneMore(parts: seq<Part>)
    requires parts != []
    ensures Spoiled(parts) <==> Spoiled(parts[1..]) || (parts[0].Broken? && NameOf(parts[0].raw) != "" && HasVar(parts[1..]))
  {
    hide NameOf;
    var rest := parts[1..];
    if Spoiled(rest) {
      var i: nat, j: nat :| Spoils(rest, i, j);
      assert forall m | i + 1 < m < j + 1 :: parts[m] == rest[m - 1];
      assert Spoils(parts, i + 1, j + 1);
    }
    if parts[0].Broken? && NameOf(parts[0].raw) != "" && HasVar(rest) {
      var j := HasFirstVar(rest);
      assert forall m | 0 < m < j + 1 :: parts[m] == rest[m - 1];
      assert Spoils(parts, 0, j + 1);
    }
    if Spoiled(parts) {
      var i: nat, j: nat :| Spoils(parts, i, j);
      VarIsThere(rest, j - 1);
      if i > 0 {
        assert forall m | i - 1 < m < j - 1 :: rest[m] == parts[m + 1];
        assert Spoils(rest, i - 1, j - 1);
      }
    }
  }

  lemma {:induction false} SpoiledFromIs(parts: seq<Part>, carried: string)
    ensures SpoiledFrom(parts, carried) <==> Spoiled(parts) || (carried != "" && HasVar(parts))
  {
    hide NameOf, Spoiled;
    if parts == [] {
      NothingSpoiled();
    } else {
      SpoiledFromIs(parts[1..], CarriedOn(parts[0], carried));
      SpoiledOneMore(parts);
    }
  }

  lemma NothingSpoiled()
    ensures !Spoiled([])
  {
  }

  lemma {:induction false} UnspoiledIsApart(parts: seq<Part>, values: map<string, string>, carried: string)
    requires !SpoiledFrom(parts, carried)
    ensures Expanded(parts, values, carried) == ExpandedApart(parts, values)
  {
    if parts != [] {
      UnspoiledIsApart(parts[1..], values, CarriedOn(parts[0], carried));
      hide NameOf, ValueOf;
      assert parts[0].Var? ==> carried == "";
    }
  }

  /** The names that are looked up, with and without what is carried. */
  function Names(parts: seq<Part>, carried: string): set<string> {
    if parts == [] then {}
    else
      (if parts[0].Var? then {NameOf(parts[0].raw), carried + NameOf(parts[0].raw)} else {}) +
      Names(parts[1..], CarriedOn(parts[0], carried))
  }

  /** Where every name stands for itself, longer names give longer texts. */
  lemma {:induction false} NamesGrow(parts: seq<Part>, values: map<string, string>, carried: string)
    requires forall name | name in Names(parts, carried) :: name in values && values[name] == name
    ensures |Expanded(parts, values, carried)| >= |ExpandedApart(parts, values)|
    ensures SpoiledFrom(parts, carried) ==> |Expanded(parts, values, carried)| > |ExpandedApart(parts, values)|
  {
    if parts != [] {
      NamesGrow(parts[1..], values, CarriedOn(parts[0], carried));
      hide NameOf;
      if parts[0].Var? {
        var name := NameOf(parts[0].raw);
        assert name in Names(parts, carried) && carried + name in Names(parts, carried);
        assert "" + name == name;
      }
    }
  }

  /**
   Whatever the values are, every reference of a text gets the value of its own name, if and only
   if no broken reference with a name comes before a reference with no other in between.
   */
  lemma ReferencesStandApartExactly(parts: seq<Part>)
    ensures (forall values :: Expanded(parts, values, "") == ExpandedApart(parts, values)) <==> !Spoiled(parts)
  {
    SpoiledFromIs(parts, "");
    if SpoiledFrom(parts, "") {
      var values := map name | name in Names(parts, "") :: name;
      NamesGrow(parts, values, "");
    } else {
      forall values
        ensures Expanded(parts, values, "") == ExpandedApart(parts, values)
      {
        UnspoiledIsApart(parts, values, "");
      }
    }
  }

  /** The same for every text that is scanned. */
  lemma TextStandsApartExactly(source: string)
    ensures (forall values :: Run(Scan(Outside, "", ""), source, values).result == ExpandedApart(PartsOf(source).0, values)) <==>
            !Spoiled(PartsOf(source).0)
  {
    ReferencesStandApartExactly(PartsOf(source).0);
    forall values
      ensures Run(Scan(Outside, "", ""), source, values).result == Expanded(PartsOf(source).0, values, "")
    {
      EveryTextIsExpanded(source, values);
    }
    hide Run, PartsOf, Expanded, ExpandedApart, Spoiled;
  }
}
