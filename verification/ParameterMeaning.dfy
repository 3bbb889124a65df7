/** Which value a parameter reference gets, told by paths: what a reader finds in a value after substitution. */
module ParameterMeaning {
  import opened Wrappers
  import opened Decimal
  import opened JsonPatch
  import opened Expansion

  // ---------------------------------------------------------------------------------------------
  // Substitution by paths.

  /** After how many steps the path meets its first reference. */
  function Meets(value: Json, path: Tokens): Option<nat>
    decreases |path|
  {
    if Reference(value).Some? then Some(0)
    else if path == [] || Child(value, path[0]).None? then None
    else
      var n :- Meets(Child(value, path[0]).value, path[1..]);
      Some(n + 1)
  }

  /** Nothing, the same scalar, arrays of one length, or objects with the same members. */
  predicate SameShape(a: Option<Json>, b: Option<Json>) {
    match (a, b)
    case (Some(Arr(xs)), Some(Arr(ys))) => |xs| == |ys|
    case (Some(Obj(m)), Some(Obj(n))) => m.Keys == n.Keys
    case _ => a == b
  }

  lemma SubstitutedChild(value: Json, parameters: map<string, Json>, key: string)
    requires Reference(value).None?
    ensures Child(SubstituteJson(value, parameters), key) ==
            if Child(value, key).None? then None else Some(SubstituteJson(Child(value, key).value, parameters))
  {
  }

  /** The path meets a reference where the value has one. */
  lemma {:induction false} MetReference(value: Json, path: Tokens)
    requires Meets(value, path).Some?
    ensures Meets(value, path).value <= |path|
    ensures var found := Lookup(value, path[..Meets(value, path).value]);
            found.Some? && Reference(found.value).Some?
    decreases |path|
  {
    var n := Meets(value, path).value;
    if n > 0 {
      MetReference(Child(value, path[0]).value, path[1..]);
      assert path[..n][1..] == path[1..][..n - 1];
    }
  }

  /** A reference is replaced by the parameter's value, and the path goes on inside that value. */
  lemma {:induction false} ReferenceIsReplaced(value: Json, parameters: map<string, Json>, path: Tokens, name: string)
    requires Meets(value, path).Some?
    requires Meets(value, path).value <= |path| && Lookup(value, path[..Meets(value, path).value]).Some?
    requires Reference(Lookup(value, path[..Meets(value, path).value]).value) == Some(name) && name in parameters
    ensures Lookup(SubstituteJson(value, parameters), path) == Lookup(parameters[name], path[Meets(value, path).value..])
    decreases |path|
  {
    var n := Meets(value, path).value;
    if n == 0 {
      assert path[..0] == [] && path[0..] == path;
    } else {
      assert path[..n][1..] == path[1..][..n - 1] && path[n..] == path[1..][n - 1..];
      SubstitutedChild(value, parameters, path[0]);
      ReferenceIsReplaced(Child(value, path[0]).value, parameters, path[1..], name);
    }
  }

  /** A path that meets no reference reads as before. */
  lemma {:induction false} TheRestIsKept(value: Json, parameters: map<string, Json>, path: Tokens)
    requires Meets(value, path).None?
    ensures SameShape(Lookup(value, path), Lookup(SubstituteJson(value, parameters), path))
    decreases |path|
  {
    if path != [] {
      SubstitutedChild(value, parameters, path[0]);
      if Child(value, path[0]).Some? {
        TheRestIsKept(Child(value, path[0]).value, parameters, path[1..]);
      }
    }
  }

  // ---------------------------------------------------------------------------------------------
  // What stands under a name.

  predicate DistinctDefinitions(definitions: seq<ParameterDefinition>) {
    forall i, j :: 0 <= i < j < |definitions| ==> definitions[i].name != definitions[j].name
  }

  predicate DistinctBindings(bindings: seq<Binding>) {
    forall i, j :: 0 <= i < j < |bindings| ==> bindings[i].name != bindings[j].name
  }

  /** The value of a parameter: the one provided, unless there is none or it is null; then the default. */
  ghost predicate Given(definition: ParameterDefinition, provided: seq<Binding>, v: Json) {
    if exists w :: w != Null && Binding(definition.name, w) in provided
    then v != Null && Binding(definition.name, v) in provided
    else definition.default == Some(v)
  }

  /** The value of the declared parameter with this name. */
  ghost predicate GivenAs(definitions: seq<ParameterDefinition>, provided: seq<Binding>, name: string, v: Json) {
    exists k :: 0 <= k < |definitions| && definitions[k].name == name && Given(definitions[k], provided, v)
  }

  lemma {:induction false} FindMeaning(provided: seq<Binding>, name: string, v: Json)
    requires DistinctBindings(provided)
    ensures Find(provided, name) == Some(v) <==> Binding(name, v) in provided
  {
    if provided != [] {
      FindMeaning(provided[1..], name, v);
      assert provided == [provided[0]] + provided[1..];
    }
  }

  lemma ProvidedMeaning(definition: ParameterDefinition, provided: seq<Binding>, v: Json)
    requires DistinctBindings(provided)
    ensures Provided(definition, provided) == Some(v) <==> Given(definition, provided, v)
  {
    FindMeaning(provided, definition.name, v);
    if w :| w != Null && Binding(definition.name, w) in provided {
      FindMeaning(provided, definition.name, w);
    } else if Find(provided, definition.name).Some? {
      FindMeaning(provided, definition.name, Find(provided, definition.name).value);
    }
  }

  /** An instance's parameters hold exactly the values given for its definition's names. */
  lemma {:induction false} ResolveMeaning(definitions: seq<ParameterDefinition>, provided: seq<Binding>, name: string, v: Json)
    requires DistinctDefinitions(definitions) && DistinctBindings(provided)
    ensures name in Resolve(definitions, provided) && Resolve(definitions, provided)[name] == v <==>
            GivenAs(definitions, provided, name, v)
  {
    if definitions != [] {
      var first, rest := definitions[0], definitions[1..];
      ResolveMeaning(rest, provided, name, v);
      ProvidedMeaning(first, provided, v);
      assert definitions == [first] + rest;
      if first.name == name {
        Undeclared(rest, provided, name);
        if GivenAs(definitions, provided, name, v) {
          var k :| 0 <= k < |definitions| && definitions[k].name == name && Given(definitions[k], provided, v);
          assert k == 0;
        }
      } else if GivenAs(rest, provided, name, v) {
        var k :| 0 <= k < |rest| && rest[k].name == name && Given(rest[k], provided, v);
        assert definitions[k + 1] == rest[k];
      }
    }
  }

  lemma {:induction false} Undeclared(definitions: seq<ParameterDefinition>, provided: seq<Binding>, name: string)
    requires forall k :: 0 <= k < |definitions| ==> definitions[k].name != name
    ensures name !in Resolve(definitions, provided)
  {
    if definitions != [] {
      Undeclared(definitions[1..], provided, name);
    }
  }

  // ---------------------------------------------------------------------------------------------
  // A value as an instance shows it.

  /** On every path: where the value has a reference, the value given for it; everything else as it stands. */
  ghost predicate Shown(value: Json, shown: Json, definitions: seq<ParameterDefinition>, provided: seq<Binding>) {
    forall path :: ShownAt(value, shown, definitions, provided, path)
  }

  ghost predicate ShownAt(value: Json, shown: Json, definitions: seq<ParameterDefinition>, provided: seq<Binding>, path: Tokens) {
    match Meets(value, path)
    case None => SameShape(Lookup(value, path), Lookup(shown, path))
    case Some(n) =>
      && n <= |path| && Lookup(value, path[..n]).Some? && Reference(Lookup(value, path[..n]).value).Some?
      && exists v :: GivenAs(definitions, provided, Reference(Lookup(value, path[..n]).value).value, v)
                     && Lookup(shown, path) == Lookup(v, path[n..])
  }

  /** In a clean value every reference that a path meets has a value. */
  lemma {:induction false} CleanOnPath(value: Json, parameters: map<string, Json>, path: Tokens)
    requires CleanJson(value, parameters) && Meets(value, path).Some?
    ensures Meets(value, path).value <= |path| && Lookup(value, path[..Meets(value, path).value]).Some?
    ensures var reference := Reference(Lookup(value, path[..Meets(value, path).value]).value);
            reference.Some? && reference.value in parameters
    decreases |path|
  {
    MetReference(value, path);
    var n := Meets(value, path).value;
    if n > 0 {
      assert path[..n][1..] == path[1..][..n - 1];
      CleanOnPath(Child(value, path[0]).value, parameters, path[1..]);
    }
  }

  lemma SubstitutionShows(value: Json, definitions: seq<ParameterDefinition>, provided: seq<Binding>)
    requires DistinctDefinitions(definitions) && DistinctBindings(provided)
    requires CleanJson(value, Resolve(definitions, provided))
    ensures Shown(value, SubstituteJson(value, Resolve(definitions, provided)), definitions, provided)
  {
    var parameters := Resolve(definitions, provided);
    forall path ensures ShownAt(value, SubstituteJson(value, parameters), definitions, provided, path) {
      if Meets(value, path).None? {
        TheRestIsKept(value, parameters, path);
      } else {
        CleanOnPath(value, parameters, path);
        var name := Reference(Lookup(value, path[..Meets(value, path).value]).value).value;
        ReferenceIsReplaced(value, parameters, path, name);
        ResolveMeaning(definitions, provided, name, parameters[name]);
      }
    }
  }

  /** Two values that an instance could show for the same one are the same: the paths tell everything. */
  lemma {:induction false} ShownIsUnique(a: Json, b: Json)
    requires forall path :: SameShape(Lookup(a, path), Lookup(b, path))
    ensures a == b
    decreases a
  {
    assert SameShape(Lookup(a, []), Lookup(b, []));
    match a
    case Arr(xs) =>
      forall i | 0 <= i < |xs| ensures xs[i] == b.items[i] {
        NumeralParses(i);
        SameChildren(a, b, Numeral(i), xs[i], b.items[i]);
        ShownIsUnique(xs[i], b.items[i]);
      }
    case Obj(m) =>
      forall k | k in m ensures m[k] == b.members[k] {
        SameChildren(a, b, k, m[k], b.members[k]);
        ShownIsUnique(m[k], b.members[k]);
      }
    case _ =>
  }

  lemma SameChildren(a: Json, b: Json, key: string, x: Json, y: Json)
    requires forall path :: SameShape(Lookup(a, path), Lookup(b, path))
    requires Child(a, key) == Some(x) && Child(b, key) == Some(y)
    ensures forall path :: SameShape(Lookup(x, path), Lookup(y, path))
  {
    forall path ensures SameShape(Lookup(x, path), Lookup(y, path)) {
      assert ([key] + path)[1..] == path;
      assert SameShape(Lookup(a, [key] + path), Lookup(b, [key] + path));
    }
  }
}
