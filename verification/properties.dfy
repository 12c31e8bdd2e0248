/** Custom properties: a list of (name, type, value) entries looked up by
    name, with rules for which entry wins when several share a name. */
module Properties {
  import opened Errors

  /** `Property`. An empty `typ` is Tiled's default, a string property. */
  datatype Property = Property(name: string, typ: string, value: string)

  /** The index of the first entry of `p` that satisfies `f`. */
  function FirstWhere(p: seq<Property>, f: Property -> bool): (r: Option<nat>)
    ensures r.Some? ==> r.value < |p| && f(p[r.value]) && forall j :: 0 <= j < r.value ==> !f(p[j])
    ensures r.None? ==> forall j :: 0 <= j < |p| ==> !f(p[j])
  {
    if |p| == 0 then None
    else if f(p[0]) then Some(0)
    else match FirstWhere(p[1..], f)
      case None => None
      case Some(i) => Some(i + 1)
  }

  /** Extending the list at the back changes the first match only when there
      was none before. */
  lemma {:induction false} FirstWhereSnoc(p: seq<Property>, q: Property, f: Property -> bool)
    ensures FirstWhere(p + [q], f) ==
              if FirstWhere(p, f).Some? then FirstWhere(p, f)
              else if f(q) then Some(|p|) else None
  {
    if |p| > 0 {
      assert (p + [q])[0] == p[0];
      if !f(p[0]) {
        assert (p + [q])[1..] == p[1..] + [q];
        FirstWhereSnoc(p[1..], q, f);
      }
    }
  }

  predicate Named(q: Property, name: string) { q.name == name }

  /** The values of all entries called `name`, in list order. */
  function ValuesNamed(p: seq<Property>, name: string): (r: seq<string>)
    ensures |r| <= |p|
  {
    if |p| == 0 then []
    else ValuesNamed(p[..|p| - 1], name) + (if Named(p[|p| - 1], name) then [p[|p| - 1].value] else [])
  }

  /** `ValuesNamed` holds exactly the values of entries called `name`, and is
      empty exactly when no entry has that name. */
  lemma {:induction false} ValuesNamedSpec(p: seq<Property>, name: string)
    ensures forall v :: v in ValuesNamed(p, name) <==> exists i :: 0 <= i < |p| && Named(p[i], name) && p[i].value == v
    ensures (forall i :: 0 <= i < |p| ==> !Named(p[i], name)) <==> ValuesNamed(p, name) == []
  {
    if |p| > 0 {
      var init := p[..|p| - 1];
      ValuesNamedSpec(init, name);
      assert forall i :: 0 <= i < |init| ==> init[i] == p[i];
      forall v | v in ValuesNamed(p, name)
        ensures exists i :: 0 <= i < |p| && Named(p[i], name) && p[i].value == v
      {
        if v !in ValuesNamed(init, name) {
          assert Named(p[|p| - 1], name) && p[|p| - 1].value == v;
        }
      }
    }
  }

  /** `Properties.Get`: the values of all entries called `name`. */
  method Get(p: seq<Property>, name: string) returns (values: seq<string>)
    ensures values == ValuesNamed(p, name)
  {
    values := [];
    var i := 0;
    while i < |p|
      invariant 0 <= i <= |p|
      invariant values == ValuesNamed(p[..i], name)
    {
      assert p[..i + 1][..i] == p[..i];
      if p[i].name == name {
        values := values + [p[i].value];
      }
      i := i + 1;
    }
    assert p[..i] == p;
  }

  /** An entry called `name` with the default (empty) type. */
  predicate Untyped(q: Property, name: string) { q.name == name && q.typ == "" }

  /** An entry called `name` with a non-empty value. */
  predicate Filled(q: Property, name: string) { q.name == name && q.value != "" }

  /** An entry called `name` of type exactly "Boolean". */
  predicate IsBoolean(q: Property, name: string) { q.name == name && q.typ == "Boolean" }

  /** The first non-empty value among entries called `name`, or "". */
  function FirstFilled(p: seq<Property>, name: string): string
  {
    match FirstWhere(p, q => Filled(q, name))
    case None => ""
    case Some(i) => p[i].value
  }

  /** What `GetString` returns: the value of the first untyped entry called
      `name` if there is one, else the first non-empty value of a typed one. */
  function StringValue(p: seq<Property>, name: string): string
  {
    match FirstWhere(p, q => Untyped(q, name))
    case Some(i) => p[i].value
    case None => FirstFilled(p, name)
  }

  /** `Properties.GetString`. */
  method GetString(p: seq<Property>, name: string) returns (v: string)
    ensures v == StringValue(p, name)
  {
    v := "";
    var i := 0;
    while i < |p|
      invariant 0 <= i <= |p|
      invariant FirstWhere(p[..i], q => Untyped(q, name)).None?
      invariant v == FirstFilled(p[..i], name)
    {
      FirstWhereSnoc(p[..i], p[i], q => Untyped(q, name));
      FirstWhereSnoc(p[..i], p[i], q => Filled(q, name));
      assert p[..i + 1] == p[..i] + [p[i]];
      if p[i].name == name {
        if p[i].typ == "" {
          FirstWhereExtends(p, i + 1, q => Untyped(q, name));
          return p[i].value;
        } else if v == "" {
          v := p[i].value;
        }
      }
      i := i + 1;
    }
    assert p[..i] == p;
  }

  /** A first match found in a prefix is the first match of the whole list. */
  lemma FirstWhereExtends(p: seq<Property>, n: nat, f: Property -> bool)
    requires n <= |p| && FirstWhere(p[..n], f).Some?
    ensures FirstWhere(p, f) == FirstWhere(p[..n], f)
  {
    var i := FirstWhere(p[..n], f).value;
    assert p[..n][i] == p[i];
    forall j | 0 <= j < i
      ensures !f(p[j])
    {
      assert p[..n][j] == p[j];
    }
    FirstWhereAt(p, f, i);
  }

  /** The first entry that satisfies `f` is the one `FirstWhere` finds. */
  lemma FirstWhereAt(p: seq<Property>, f: Property -> bool, i: nat)
    requires i < |p| && f(p[i])
    requires forall j :: 0 <= j < i ==> !f(p[j])
    ensures FirstWhere(p, f) == Some(i)
  {
    var r := FirstWhere(p, f);
    assert r.Some? && r.value == i;
  }

  /** What `GetBool` returns. */
  function BoolValue(p: seq<Property>, name: string): bool
  {
    match FirstWhere(p, q => IsBoolean(q, name))
    case Some(i) => p[i].value == "true"
    case None => StringValue(p, name) == "true"
  }

  /** `Properties.GetBool`. */
  method GetBool(p: seq<Property>, name: string) returns (b: bool)
    ensures b == BoolValue(p, name)
  {
    var i := 0;
    while i < |p|
      invariant 0 <= i <= |p|
      invariant FirstWhere(p[..i], q => IsBoolean(q, name)).None?
    {
      FirstWhereSnoc(p[..i], p[i], q => IsBoolean(q, name));
      assert p[..i + 1] == p[..i] + [p[i]];
      if p[i].name == name && p[i].typ == "Boolean" {
        FirstWhereExtends(p, i + 1, q => IsBoolean(q, name));
        return p[i].value == "true";
      }
      i := i + 1;
    }
    assert p[..i] == p;
    var s := GetString(p, name);
    return s == "true";
  }

  /** An untyped entry wins over every typed one, wherever they stand. */
  lemma UntypedWins(p: seq<Property>, name: string, i: nat)
    requires i < |p| && Untyped(p[i], name)
    requires forall j :: 0 <= j < i ==> !Untyped(p[j], name)
    ensures StringValue(p, name) == p[i].value
  {
    var r := FirstWhere(p, q => Untyped(q, name));
    assert r.Some? && r.value == i;
  }

  /** Without untyped entries, the first non-empty value of a typed entry is
      returned; when there is none the result is "". */
  lemma TypedFallback(p: seq<Property>, name: string)
    requires forall j :: 0 <= j < |p| ==> !Untyped(p[j], name)
    ensures StringValue(p, name) == FirstFilled(p, name)
    ensures (forall j :: 0 <= j < |p| ==> !Filled(p[j], name)) ==> StringValue(p, name) == ""
    ensures StringValue(p, name) != "" ==>
              exists j :: 0 <= j < |p| && Filled(p[j], name) && p[j].value == StringValue(p, name)
  {
    assert FirstWhere(p, q => Untyped(q, name)).None?;
  }

  /** `GetBool` reads the first "Boolean" entry if there is one; otherwise it
      compares the `GetString` answer with "true". */
  lemma BoolPrecedence(p: seq<Property>, name: string, i: nat)
    requires i < |p| && IsBoolean(p[i], name)
    requires forall j :: 0 <= j < i ==> !IsBoolean(p[j], name)
    ensures BoolValue(p, name) == (p[i].value == "true")
  {
    var r := FirstWhere(p, q => IsBoolean(q, name));
    assert r.Some? && r.value == i;
  }

  /** The type test is case-sensitive: an entry typed "boolean" (as Tiled
      writes it) is found through the string fallback, as in the package
      tests. */
  lemma LowercaseBooleanFallsBack()
    ensures BoolValue(TestProperties(), "bool-name")
    ensures StringValue(TestProperties(), "string-name") == "string-value"
  {
    var p := TestProperties();
    assert FirstWhere(p, q => IsBoolean(q, "bool-name")).None?;
    TestBoolAsString();
    TestStringTyped();
  }

  /** The property list of the package tests. */
  function TestProperties(): seq<Property>
  {
    [Property("string-name", "string", "string-value"),
     Property("int-name", "int", "123"),
     Property("float-name", "float", "1.23"),
     Property("bool-name", "boolean", "true")]
  }

  /** The first non-empty value among typed entries is the string answer. */
  lemma FirstFilledAt(p: seq<Property>, name: string, i: nat)
    requires forall j :: 0 <= j < |p| ==> !Untyped(p[j], name)
    requires i < |p| && Filled(p[i], name)
    requires forall j :: 0 <= j < i ==> !Filled(p[j], name)
    ensures StringValue(p, name) == p[i].value
  {
    TypedFallback(p, name);
    var r := FirstWhere(p, q => Filled(q, name));
    assert r.Some? && r.value == i;
  }

  /** In the test list the "boolean" entry is read as a string. */
  lemma TestBoolAsString()
    ensures StringValue(TestProperties(), "bool-name") == "true"
  {
    var p := TestProperties();
    assert forall j :: 0 <= j < |p| ==> p[j].typ != "";
    FirstFilledAt(p, "bool-name", 3);
  }

  /** In the test list the "string" entry is read by `GetString`. */
  lemma TestStringTyped()
    ensures StringValue(TestProperties(), "string-name") == "string-value"
  {
    var p := TestProperties();
    assert forall j :: 0 <= j < |p| ==> p[j].typ != "";
    FirstFilledAt(p, "string-name", 0);
  }
}
