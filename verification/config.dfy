/** `read_trigger_config` of project.py, from the list of configuration
    lines on: each line is cut at commas, definition lines bind a name
    in the registry, `ADD` lines append named triggers to the result. */
module Config {
  import opened Results
  import opened Fields
  import opened Triggers

  /** The exceptions the line loop can raise: `IndexError` for a missing
      field, `KeyError(name)` for a name not yet defined, and
      `ValueError(text)` when a time argument does not parse. */
  datatype ConfigError = IndexError | KeyError(name: string) | ValueError(text: string)

  /** The loop state: `trigger_map` and `triggers`. */
  datatype Compiler = Compiler(registry: map<string, Trigger>, active: seq<Trigger>)

  /** A time parser: `datetime.strptime(text, "%d %b %Y %H:%M:%S")`,
      `None` where it raises `ValueError`. */
  type TimeParser = string -> Option<int>

  /** The type tokens that define a trigger. */
  const Kinds: set<string> := {"TITLE", "DESCRIPTION", "AFTER", "BEFORE", "NOT", "AND", "OR"}

  /** `parts[k]`. */
  function Part(parts: seq<string>, k: nat): Result<string, ConfigError> {
    if k < |parts| then Ok(parts[k]) else Err(IndexError)
  }

  /** `trigger_map[name]`. */
  function Resolve(registry: map<string, Trigger>, name: string): Result<Trigger, ConfigError> {
    if name in registry then Ok(registry[name]) else Err(KeyError(name))
  }

  /** The time trigger argument, parsed. */
  function ParseTime(parse: TimeParser, text: string): Result<int, ConfigError> {
    match parse(text)
    case Some(t) => Ok(t)
    case None => Err(ValueError(text))
  }

  /** `names[k]` is the first name of the list missing from the registry. */
  predicate FirstUndefined(registry: map<string, Trigger>, names: seq<string>, k: int) {
    && 0 <= k < |names|
    && names[k] !in registry
    && forall j :: 0 <= j < k ==> names[j] in registry
  }

  /** `[trigger_map[name] for name in names]`, in order: every name must
      be defined, and the first undefined one is the one reported. */
  function ResolveAll(registry: map<string, Trigger>, names: seq<string>): (r: Result<seq<Trigger>, ConfigError>)
    ensures r.Ok? <==> forall k :: 0 <= k < |names| ==> names[k] in registry
    ensures r.Ok? ==> |r.value| == |names|
    ensures r.Ok? ==> forall k :: 0 <= k < |names| ==> r.value[k] == registry[names[k]]
    ensures r.Err? ==> exists k :: FirstUndefined(registry, names, k) && r.error == KeyError(names[k])
  {
    if names == [] then Ok([])
    else
      var t :- Resolve(registry, names[0]);
      var ts :- ResolveAll(registry, names[1..]);
      Ok([t] + ts)
  }

  /** The trigger a definition line builds, or `None` for a type token
      the `if`/`elif` chain does not know. Fields are read, and names
      looked up, in the order the Python expression evaluates them. */
  function Build(registry: map<string, Trigger>, parts: seq<string>, parse: TimeParser)
    : (r: Result<Option<Trigger>, ConfigError>)
    requires |parts| >= 2
    // Exactly the unknown type tokens build nothing.
    ensures r == Ok(None) <==> parts[1] !in Kinds
    // Every known type reads its first argument.
    ensures r.Ok? && r.value.Some? ==> |parts| >= 3
    // The only failures: a missing field, an undefined operand named on
    // the line, or a time argument that does not parse.
    ensures r.Err? ==>
      || r.error == IndexError
      || (r.error.KeyError? && r.error.name !in registry && r.error.name in parts[2..])
      || (|parts| >= 3 && r.error == ValueError(parts[2]) && parse(parts[2]).None?)
  {
    var kind := parts[1];
    if kind == "TITLE" then
      var p :- Part(parts, 2);
      Ok(Some(TitleTrigger(p)))
    else if kind == "DESCRIPTION" then
      var p :- Part(parts, 2);
      Ok(Some(DescriptionTrigger(p)))
    else if kind == "AFTER" then
      var p :- Part(parts, 2);
      var t :- ParseTime(parse, p);
      Ok(Some(After(t)))
    else if kind == "BEFORE" then
      var p :- Part(parts, 2);
      var t :- ParseTime(parse, p);
      Ok(Some(Before(t)))
    else if kind == "NOT" then
      var n :- Part(parts, 2);
      var u :- Resolve(registry, n);
      Ok(Some(Not(u)))
    else if kind == "AND" || kind == "OR" then
      var n1 :- Part(parts, 2);
      var l :- Resolve(registry, n1);
      var n2 :- Part(parts, 3);
      var r :- Resolve(registry, n2);
      Ok(Some(if kind == "AND" then And(l, r) else Or(l, r)))
    else
      Ok(None)
  }

  /** `line.split(',')`. */
  function Parts(line: string): seq<string> {
    SplitOn(line, ',')
  }

  /** A line whose first field is `ADD`. */
  predicate IsAddLine(line: string) {
    Parts(line)[0] == "ADD"
  }

  /** A definition line of type `kind` with at least `n` fields. */
  predicate Defines(line: string, kind: string, n: nat) {
    !IsAddLine(line) && |Parts(line)| >= 2 && |Parts(line)| >= n && Parts(line)[1] == kind
  }

  /** The state after binding the line's name to `t`. */
  function Bind(c: Compiler, line: string, t: Trigger): Compiler {
    Compiler(c.registry[Parts(line)[0] := t], c.active)
  }

  /** One iteration of the line loop. */
  function CompileLine(c: Compiler, line: string, parse: TimeParser): (r: Result<Compiler, ConfigError>)
    // ADD lines append the named triggers, in order, and define nothing.
    ensures IsAddLine(line) ==>
      r == (match ResolveAll(c.registry, Parts(line)[1..])
            case Ok(ts) => Ok(Compiler(c.registry, c.active + ts))
            case Err(e) => Err(e))
    // Only ADD lines contribute to the result.
    ensures !IsAddLine(line) && r.Ok? ==> r.value.active == c.active
    // A definition line without a type field fails.
    ensures !IsAddLine(line) && |Parts(line)| < 2 ==> r == Err(IndexError)
    // An unknown type token changes nothing.
    ensures !IsAddLine(line) && |Parts(line)| >= 2 && Parts(line)[1] !in Kinds ==> r == Ok(c)
    // A known type token binds the name, overwriting any earlier binding.
    ensures !IsAddLine(line) && |Parts(line)| >= 2 && Parts(line)[1] in Kinds && r.Ok? ==>
      && Parts(line)[0] in r.value.registry
      && r.value.registry == c.registry[Parts(line)[0] := r.value.registry[Parts(line)[0]]]
    // A known type token without its argument fails.
    ensures !IsAddLine(line) && |Parts(line)| == 2 && Parts(line)[1] in Kinds ==> r == Err(IndexError)
    // A time argument that does not parse fails, naming that argument.
    ensures (&& !IsAddLine(line) && |Parts(line)| >= 3
             && Parts(line)[1] in {"AFTER", "BEFORE"} && parse(Parts(line)[2]).None?)
      ==> r == Err(ValueError(Parts(line)[2]))
    // AND and OR need a second operand, and it must be defined.
    ensures (&& !IsAddLine(line) && |Parts(line)| == 3
             && Parts(line)[1] in {"AND", "OR"} && Parts(line)[2] in c.registry)
      ==> r == Err(IndexError)
    ensures (&& !IsAddLine(line) && |Parts(line)| >= 4 && Parts(line)[1] in {"AND", "OR"}
             && Parts(line)[2] in c.registry && Parts(line)[3] !in c.registry)
      ==> r == Err(KeyError(Parts(line)[3]))
    // A combinator whose first operand is not yet defined fails on that name.
    ensures (&& !IsAddLine(line) && |Parts(line)| >= 3
             && Parts(line)[1] in {"NOT", "AND", "OR"} && Parts(line)[2] !in c.registry)
      ==> r == Err(KeyError(Parts(line)[2]))
    // The trigger each known type binds, once its operands are present.
    ensures Defines(line, "TITLE", 3) ==> r == Ok(Bind(c, line, TitleTrigger(Parts(line)[2])))
    ensures Defines(line, "DESCRIPTION", 3) ==>
      r == Ok(Bind(c, line, DescriptionTrigger(Parts(line)[2])))
    ensures Defines(line, "AFTER", 3) && parse(Parts(line)[2]).Some? ==>
      r == Ok(Bind(c, line, After(parse(Parts(line)[2]).value)))
    ensures Defines(line, "BEFORE", 3) && parse(Parts(line)[2]).Some? ==>
      r == Ok(Bind(c, line, Before(parse(Parts(line)[2]).value)))
    ensures Defines(line, "NOT", 3) && Parts(line)[2] in c.registry ==>
      r == Ok(Bind(c, line, Not(c.registry[Parts(line)[2]])))
    ensures (&& Defines(line, "AND", 4)
             && Parts(line)[2] in c.registry && Parts(line)[3] in c.registry)
      ==> r == Ok(Bind(c, line, And(c.registry[Parts(line)[2]], c.registry[Parts(line)[3]])))
    ensures (&& Defines(line, "OR", 4)
             && Parts(line)[2] in c.registry && Parts(line)[3] in c.registry)
      ==> r == Ok(Bind(c, line, Or(c.registry[Parts(line)[2]], c.registry[Parts(line)[3]])))
  {
    var parts := Parts(line);
    if parts[0] == "ADD" then
      var ts :- ResolveAll(c.registry, parts[1..]);
      Ok(Compiler(c.registry, c.active + ts))
    else if |parts| < 2 then
      Err(IndexError)
    else
      var built :- Build(c.registry, parts, parse);
      match built
      case Some(t) => Ok(Compiler(c.registry[parts[0] := t], c.active))
      case None => Ok(c)
  }

  /** How many names the ADD lines list, duplicates counted. */
  function AddCount(lines: seq<string>): nat {
    if lines == [] then 0
    else (if IsAddLine(lines[0]) then |Parts(lines[0])| - 1 else 0) + AddCount(lines[1..])
  }

  /** The line loop from state `c`; the first exception ends it. */
  function Run(c: Compiler, lines: seq<string>, parse: TimeParser): (r: Result<Compiler, ConfigError>)
    // A defined name stays defined: no line removes a binding.
    ensures r.Ok? ==> c.registry.Keys <= r.value.registry.Keys
    // Each name listed on an ADD line appends exactly one trigger.
    ensures r.Ok? ==> |r.value.active| == |c.active| + AddCount(lines)
    decreases |lines|
  {
    if lines == [] then Ok(c)
    else
      var next :- CompileLine(c, lines[0], parse);
      Run(next, lines[1..], parse)
  }

  /** `read_trigger_config` on the already filtered lines. */
  function Compile(lines: seq<string>, parse: TimeParser): (r: Result<seq<Trigger>, ConfigError>)
    // One trigger per name listed on the ADD lines, duplicates kept.
    ensures r.Ok? ==> |r.value| == AddCount(lines)
  {
    var c :- Run(Compiler(map[], []), lines, parse);
    Ok(c.active)
  }

  /** Running two blocks of lines is running the first, then the second
      from where the first left off; an exception in the first ends all. */
  lemma {:induction false} RunAppend(c: Compiler, a: seq<string>, b: seq<string>, parse: TimeParser)
    ensures Run(c, a + b, parse) ==
      (match Run(c, a, parse)
       case Ok(c') => Run(c', b, parse)
       case Err(e) => Err(e))
    decreases |a|
  {
    if a == [] {
      assert a + b == b;
    } else {
      assert (a + b)[0] == a[0];
      assert (a + b)[1..] == a[1..] + b;
      match CompileLine(c, a[0], parse)
      case Ok(next) => RunAppend(next, a[1..], b, parse);
      case Err(_) =>
    }
  }

  /** Fail closed: once a line raises, the whole load raises that error,
      whatever follows; no partial trigger list is returned. */
  lemma FailClosed(before: seq<string>, line: string, after: seq<string>, parse: TimeParser, c: Compiler, e: ConfigError)
    requires Run(Compiler(map[], []), before, parse) == Ok(c)
    requires CompileLine(c, line, parse) == Err(e)
    ensures Compile(before + [line] + after, parse) == Err(e)
  {
    RunAppend(Compiler(map[], []), before, [line] + after, parse);
    assert before + [line] + after == before + ([line] + after);
  }

  /** Triggers appended by earlier ADD lines stay in place: the result of
      the loop extends its starting list. */
  lemma {:induction false} ActiveOnlyGrows(c: Compiler, lines: seq<string>, parse: TimeParser)
    requires Run(c, lines, parse).Ok?
    ensures c.active <= Run(c, lines, parse).value.active
    decreases |lines|
  {
    if lines != [] {
      var next := CompileLine(c, lines[0], parse).value;
      ActiveOnlyGrows(next, lines[1..], parse);
    }
  }

  /** Without ADD lines the loop leaves the result list as it was, so a
      configuration with no ADD line yields no trigger. */
  lemma {:induction false} NoAddLeavesActive(c: Compiler, lines: seq<string>, parse: TimeParser)
    requires forall k :: 0 <= k < |lines| ==> !IsAddLine(lines[k])
    requires Run(c, lines, parse).Ok?
    ensures Run(c, lines, parse).value.active == c.active
    decreases |lines|
  {
    if lines != [] {
      var next := CompileLine(c, lines[0], parse).value;
      NoAddLeavesActive(next, lines[1..], parse);
    }
  }

  lemma NoAddNoTriggers(lines: seq<string>, parse: TimeParser)
    requires forall k :: 0 <= k < |lines| ==> !IsAddLine(lines[k])
    requires Compile(lines, parse).Ok?
    ensures Compile(lines, parse).value == []
  {
    NoAddLeavesActive(Compiler(map[], []), lines, parse);
  }

  /** A line whose type token is unknown can be deleted without changing
      the outcome of the load. */
  lemma UnknownLineIsIgnored(c: Compiler, before: seq<string>, line: string, after: seq<string>, parse: TimeParser)
    requires !IsAddLine(line) && |Parts(line)| >= 2 && Parts(line)[1] !in Kinds
    ensures Run(c, before + [line] + after, parse) == Run(c, before + after, parse)
  {
    RunAppend(c, before, [line] + after, parse);
    RunAppend(c, before, after, parse);
    assert before + [line] + after == before + ([line] + after);
    assert ([line] + after)[0] == line && ([line] + after)[1..] == after;
  }

  /** The fields of a line built by joining comma-free fields with commas. */
  lemma LineParts(fields: seq<string>)
    requires |fields| >= 1
    requires forall k :: 0 <= k < |fields| ==> ',' !in fields[k]
    ensures Parts(JoinWith(fields, ',')) == fields
  {
    SplitOnJoin(fields, ',');
  }

  lemma JoinThree(a: string, b: string, d: string)
    ensures JoinWith([a, b, d], ',') == a + "," + b + "," + d
  {
    assert [a, b, d][1..] == [b, d];
    assert [b, d][1..] == [d];
    assert JoinWith([b, d], ',') == b + [','] + d;
    assert JoinWith([a, b, d], ',') == a + [','] + (b + [','] + d);
    assert "," == [','];
  }

  /** `x,NOT,y` with `y` undefined raises `KeyError(y)`, instead of
      producing a trigger. */
  lemma UndefinedReference(c: Compiler, x: string, y: string, parse: TimeParser)
    requires ',' !in x && ',' !in y && x != "ADD"
    requires y !in c.registry
    ensures CompileLine(c, x + ",NOT," + y, parse) == Err(KeyError(y))
  {
    JoinThree(x, "NOT", y);
    assert x + ",NOT," + y == x + "," + "NOT" + "," + y;
    LineParts([x, "NOT", y]);
  }

  lemma JoinTwo(a: string, b: string)
    ensures JoinWith([a, b], ',') == a + "," + b
  {
    assert [a, b][1..] == [b];
    assert "," == [','];
  }

  /** `x,TITLE,p` binds `x` to `TitleTrigger(p)`. */
  lemma TitleLine(c: Compiler, x: string, p: string, parse: TimeParser)
    requires ',' !in x && ',' !in p && x != "ADD"
    ensures CompileLine(c, x + ",TITLE," + p, parse)
         == Ok(Compiler(c.registry[x := TitleTrigger(p)], c.active))
  {
    JoinThree(x, "TITLE", p);
    assert x + ",TITLE," + p == x + "," + "TITLE" + "," + p;
    LineParts([x, "TITLE", p]);
  }

  /** `x,DESCRIPTION,p` binds `x` to `DescriptionTrigger(p)`. */
  lemma DescriptionLine(c: Compiler, x: string, p: string, parse: TimeParser)
    requires ',' !in x && ',' !in p && x != "ADD"
    ensures CompileLine(c, x + ",DESCRIPTION," + p, parse)
         == Ok(Compiler(c.registry[x := DescriptionTrigger(p)], c.active))
  {
    JoinThree(x, "DESCRIPTION", p);
    assert x + ",DESCRIPTION," + p == x + "," + "DESCRIPTION" + "," + p;
    LineParts([x, "DESCRIPTION", p]);
  }

  /** `x,AND,y,z` binds `x` to the conjunction of the current `y` and `z`. */
  lemma AndLine(c: Compiler, x: string, y: string, z: string, parse: TimeParser)
    requires ',' !in x && ',' !in y && ',' !in z && x != "ADD"
    requires y in c.registry && z in c.registry
    ensures CompileLine(c, x + ",AND," + y + "," + z, parse)
         == Ok(Compiler(c.registry[x := And(c.registry[y], c.registry[z])], c.active))
  {
    var fields := [x, "AND", y, z];
    assert fields[1..] == ["AND", y, z];
    JoinThree("AND", y, z);
    assert "," == [','];
    assert JoinWith(fields, ',') == x + "," + ("AND" + "," + y + "," + z);
    assert x + ",AND," + y + "," + z == x + "," + ("AND" + "," + y + "," + z);
    LineParts(fields);
  }

  /** `ADD,y` appends the trigger currently named `y`. */
  lemma AddOneLine(c: Compiler, y: string, parse: TimeParser)
    requires ',' !in y && y in c.registry
    ensures CompileLine(c, "ADD," + y, parse) == Ok(Compiler(c.registry, c.active + [c.registry[y]]))
  {
    JoinTwo("ADD", y);
    assert "ADD," + y == "ADD" + "," + y;
    LineParts(["ADD", y]);
    assert Parts("ADD," + y)[1..] == [y];
    var r := ResolveAll(c.registry, [y]);
    assert r.Ok? && r.value == [c.registry[y]];
  }

  /** `ADD,y,z` appends the triggers currently named `y` and `z`, in order. */
  lemma AddTwoLine(c: Compiler, y: string, z: string, parse: TimeParser)
    requires ',' !in y && ',' !in z && y in c.registry && z in c.registry
    ensures CompileLine(c, "ADD," + y + "," + z, parse)
         == Ok(Compiler(c.registry, c.active + [c.registry[y], c.registry[z]]))
  {
    JoinThree("ADD", y, z);
    assert "ADD," + y + "," + z == "ADD" + "," + y + "," + z;
    LineParts(["ADD", y, z]);
    assert Parts("ADD," + y + "," + z)[1..] == [y, z];
    var r := ResolveAll(c.registry, [y, z]);
    assert r.Ok? && r.value == [c.registry[y], c.registry[z]];
  }

  /** One successful line, then the rest of the loop. */
  lemma RunStep(c: Compiler, lines: seq<string>, next: Compiler, parse: TimeParser)
    requires lines != [] && CompileLine(c, lines[0], parse) == Ok(next)
    ensures Run(c, lines, parse) == Run(next, lines[1..], parse)
  {
  }

  /** Forward references fail: a combinator naming a trigger defined only
      on a later line raises `KeyError` for that name. */
  lemma ForwardReferenceFails(x: string, y: string, p: string, parse: TimeParser)
    requires ',' !in x && ',' !in y && ',' !in p && x != "ADD" && y != "ADD"
    ensures Compile([x + ",NOT," + y, y + ",TITLE," + p], parse) == Err(KeyError(y))
  {
    UndefinedReference(Compiler(map[], []), x, y, parse);
  }

  /** Redefining a name overwrites its binding: later ADD lines see the new
      trigger, while the one appended earlier stays in the result. */
  lemma RedefinitionOverwrites(a: string, p: string, q: string, parse: TimeParser)
    requires ',' !in a && ',' !in p && ',' !in q && a != "ADD"
    ensures Compile([a + ",TITLE," + p, "ADD," + a, a + ",TITLE," + q, "ADD," + a], parse)
         == Ok([TitleTrigger(p), TitleTrigger(q)])
  {
    var lines := [a + ",TITLE," + p, "ADD," + a, a + ",TITLE," + q, "ADD," + a];
    var c0 := Compiler(map[], []);
    var c1 := Compiler(map[a := TitleTrigger(p)], []);
    var c2 := Compiler(c1.registry, [TitleTrigger(p)]);
    var c3 := Compiler(map[a := TitleTrigger(q)], [TitleTrigger(p)]);
    var c4 := Compiler(c3.registry, [TitleTrigger(p), TitleTrigger(q)]);
    TitleLine(c0, a, p, parse);
    AddOneLine(c1, a, parse);
    assert c1.active + [c1.registry[a]] == c2.active;
    assert c1.registry[a := TitleTrigger(q)] == c3.registry;
    TitleLine(c2, a, q, parse);
    AddOneLine(c3, a, parse);
    assert c3.active + [c3.registry[a]] == c4.active;
    assert lines[1..][0] == lines[1] && lines[3..][0] == lines[3];
    RunStep(c0, lines, c1, parse);
    RunStep(c1, lines[1..], c2, parse);
    RunStep(c2, lines[2..], c3, parse);
    RunStep(c3, lines[3..], c4, parse);
    assert lines[1..][1..] == lines[2..] && lines[2..][1..] == lines[3..] && lines[3..][1..] == [];
  }

  /** The definition lines of the sample configuration: two description
      triggers and their conjunction, after a title trigger. */
  lemma SampleDefinitions(n1: string, n2: string, n3: string, n4: string,
                          w1: string, w2: string, w3: string, parse: TimeParser)
    requires ',' !in n1 && ',' !in n2 && ',' !in n3 && ',' !in n4
    requires ',' !in w1 && ',' !in w2 && ',' !in w3
    requires n1 != "ADD" && n2 != "ADD" && n3 != "ADD" && n4 != "ADD"
    requires n2 != n3
    ensures Run(Compiler(map[], []),
                [n1 + ",TITLE," + w1, n2 + ",DESCRIPTION," + w2, n3 + ",DESCRIPTION," + w3,
                 n4 + ",AND," + n2 + "," + n3], parse)
         == Ok(Compiler(map[n1 := TitleTrigger(w1)][n2 := DescriptionTrigger(w2)][n3 := DescriptionTrigger(w3)]
                          [n4 := And(DescriptionTrigger(w2), DescriptionTrigger(w3))], []))
  {
    var lines := [n1 + ",TITLE," + w1, n2 + ",DESCRIPTION," + w2, n3 + ",DESCRIPTION," + w3,
                  n4 + ",AND," + n2 + "," + n3];
    var t2 := DescriptionTrigger(w2);
    var t3 := DescriptionTrigger(w3);
    var c0 := Compiler(map[], []);
    var c1 := Compiler(map[n1 := TitleTrigger(w1)], []);
    var c2 := Compiler(c1.registry[n2 := t2], []);
    var c3 := Compiler(c2.registry[n3 := t3], []);
    var c4 := Compiler(c3.registry[n4 := And(t2, t3)], []);
    TitleLine(c0, n1, w1, parse);
    RunStep(c0, lines, c1, parse);
    DescriptionLine(c1, n2, w2, parse);
    RunStep(c1, lines[1..], c2, parse);
    DescriptionLine(c2, n3, w3, parse);
    RunStep(c2, lines[2..], c3, parse);
    assert c3.registry[n2] == t2 && c3.registry[n3] == t3;
    AndLine(c3, n4, n2, n3, parse);
    RunStep(c3, lines[3..], c4, parse);
    assert lines[1..][1..] == lines[2..] && lines[2..][1..] == lines[3..] && lines[3..][1..] == [];
  }

  /** The shape of the sample configuration: two phrase triggers joined
      by AND, added after a title trigger. */
  lemma CompileSample(n1: string, n2: string, n3: string, n4: string,
                      w1: string, w2: string, w3: string, parse: TimeParser)
    requires ',' !in n1 && ',' !in n2 && ',' !in n3 && ',' !in n4
    requires ',' !in w1 && ',' !in w2 && ',' !in w3
    requires n1 != "ADD" && n2 != "ADD" && n3 != "ADD" && n4 != "ADD"
    requires n1 != n2 && n1 != n3 && n1 != n4 && n2 != n3
    ensures Compile([n1 + ",TITLE," + w1, n2 + ",DESCRIPTION," + w2, n3 + ",DESCRIPTION," + w3,
                     n4 + ",AND," + n2 + "," + n3, "ADD," + n1 + "," + n4], parse)
         == Ok([TitleTrigger(w1), And(DescriptionTrigger(w2), DescriptionTrigger(w3))])
  {
    var defs := [n1 + ",TITLE," + w1, n2 + ",DESCRIPTION," + w2, n3 + ",DESCRIPTION," + w3,
                 n4 + ",AND," + n2 + "," + n3];
    var add := "ADD," + n1 + "," + n4;
    var t4 := And(DescriptionTrigger(w2), DescriptionTrigger(w3));
    var reg := map[n1 := TitleTrigger(w1)][n2 := DescriptionTrigger(w2)][n3 := DescriptionTrigger(w3)][n4 := t4];
    SampleDefinitions(n1, n2, n3, n4, w1, w2, w3, parse);
    RunAppend(Compiler(map[], []), defs, [add], parse);
    assert reg[n1] == TitleTrigger(w1) && reg[n4] == t4;
    AddTwoLine(Compiler(reg, []), n1, n4, parse);
    assert [] + [reg[n1], reg[n4]] == [TitleTrigger(w1), t4];
    assert [add][0] == add;
    RunStep(Compiler(reg, []), [add], Compiler(reg, [TitleTrigger(w1), t4]), parse);
    assert defs + [add] == [n1 + ",TITLE," + w1, n2 + ",DESCRIPTION," + w2, n3 + ",DESCRIPTION," + w3,
                            n4 + ",AND," + n2 + "," + n3, "ADD," + n1 + "," + n4];
  }

  /** The sample configuration compiles to the trigger list that the main
      thread builds by hand. */
  lemma SampleConfiguration(parse: TimeParser)
    ensures Compile(["t1,TITLE,election", "t2,DESCRIPTION,Trump", "t3,DESCRIPTION,Clinton",
                     "t4,AND,t2,t3", "ADD,t1,t4"], parse)
         == Ok([TitleTrigger("election"), And(DescriptionTrigger("Trump"), DescriptionTrigger("Clinton"))])
  {
    assert "t1" + ",TITLE," + "election" == "t1,TITLE,election";
    assert "t2" + ",DESCRIPTION," + "Trump" == "t2,DESCRIPTION,Trump";
    assert "t3" + ",DESCRIPTION," + "Clinton" == "t3,DESCRIPTION,Clinton";
    assert "t4" + ",AND," + "t2" + "," + "t3" == "t4,AND,t2,t3";
    assert "ADD," + "t1" + "," + "t4" == "ADD,t1,t4";
    CompileSample("t1", "t2", "t3", "t4", "election", "Trump", "Clinton", parse);
  }
}
