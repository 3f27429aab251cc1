/** The multi-rule weaver. It is driven by an ordered list of rules
    (MethodPair). Every type is scanned, its fields are sorted into per-rule
    buckets by attribute name, and for each rule with fields, call-and-store
    blocks are spliced at the head of the rule's target method. Then a Nop is
    prepended to the last rule's target method. */
module CodeGenerator {
  import opened IlModel
  import opened CollectionHelpers

  // ---------------------------------------------------------------------------
  // Locating or creating the target method.

  /** The method list after GetOrCreateMethod, and the index of the method it returns. */
  function GetOrCreate(ms: seq<MethodDef>, name: string): (r: (seq<MethodDef>, nat))
    ensures r.1 < |r.0| && r.0[r.1].name == name && FirstNamed(r.0, name) == Some(r.1)
    ensures FirstNamed(ms, name).Some? ==> r == (ms, FirstNamed(ms, name).value)
    ensures FirstNamed(ms, name).None? ==> r == (ms + [NewMethod(name)], |ms|)
  {
    match FirstNamed(ms, name)
    case Some(k) => (ms, k)
    case None =>
      var ms' := ms + [NewMethod(name)];
      assert forall i :: 0 <= i < |ms| ==> ms'[i].name != name;
      (ms', |ms|)
  }

  /** A second call finds what the first one returned and adds nothing. */
  lemma GetOrCreateIdempotent(ms: seq<MethodDef>, name: string)
    ensures GetOrCreate(GetOrCreate(ms, name).0, name) == GetOrCreate(ms, name)
  {
  }

  /** No call ever makes a second method with the name: the count becomes one
      if it was zero and stays as it was otherwise. */
  lemma GetOrCreateCount(ms: seq<MethodDef>, name: string)
    ensures CountNamed(GetOrCreate(ms, name).0, name) == if CountNamed(ms, name) == 0 then 1 else CountNamed(ms, name)
  {
    CountNamedZero(ms, name);
    if FirstNamed(ms, name).None? {
      assert (ms + [NewMethod(name)])[..|ms|] == ms;
    }
  }

  /** Locating or creating the target removes, renames and changes no method,
      and a method it appends has a body. */
  lemma GetOrCreateExtends(ms: seq<MethodDef>, name: string)
    ensures Extends(ms, GetOrCreate(ms, name).0)
    ensures forall i :: 0 <= i < |ms| ==> GetOrCreate(ms, name).0[i] == ms[i]
    ensures forall i :: |ms| <= i < |GetOrCreate(ms, name).0| ==> |GetOrCreate(ms, name).0[i].body| > 0
  {
    if FirstNamed(ms, name).Some? {
      ExtendsReflexive(ms);
    } else {
      var ms' := ms + [NewMethod(name)];
      assert GetOrCreate(ms, name).0 == ms';
      forall i | 0 <= i < |ms|
        ensures ms'[i].body[|ms'[i].body| - |ms[i].body|..] == ms[i].body
      {
        assert ms'[i] == ms[i];
        assert ms'[i].body[|ms'[i].body| - |ms[i].body|..] == ms[i].body[0..];
      }
    }
  }

  // ---------------------------------------------------------------------------
  // Classification.

  /** The index of the first rule whose attribute name is `a`. */
  function FirstRule(names: seq<string>, a: string): (r: Option<nat>)
    ensures r.Some? ==> r.value < |names| && names[r.value] == a
    ensures r.Some? ==> forall i :: 0 <= i < r.value ==> names[i] != a
    ensures r.None? ==> a !in names
  {
    if names == [] then None
    else if names[0] == a then Some(0)
    else match FirstRule(names[1..], a)
      case None => None
      case Some(k) => Some(k + 1)
  }

  function AttributeNames(pairs: seq<MethodPair>): (names: seq<string>)
    ensures |names| == |pairs| && forall i :: 0 <= i < |pairs| ==> names[i] == pairs[i].attributeName
  {
    seq(|pairs|, i requires 0 <= i < |pairs| => pairs[i].attributeName)
  }

  /** What the attributes `attrs` of field `f` add to bucket (j, wantArray):
      one copy of `f` for each attribute whose first matching rule is j. */
  function AttrHits(f: Field, attrs: seq<string>, names: seq<string>, j: nat, wantArray: bool): seq<Field>
  {
    if attrs == [] then []
    else
      AttrHits(f, attrs[..|attrs| - 1], names, j, wantArray)
        + (if FirstRule(names, attrs[|attrs| - 1]) == Some(j) && IsArray(f.fieldType) == wantArray then [f] else [])
  }

  /** The content of the simple (wantArray false) or array bucket of rule j
      after scanning `fields`. */
  function Bucket(fields: seq<Field>, names: seq<string>, j: nat, wantArray: bool): seq<Field>
  {
    if fields == [] then []
    else
      var f := fields[|fields| - 1];
      Bucket(fields[..|fields| - 1], names, j, wantArray) + AttrHits(f, f.attributes, names, j, wantArray)
  }

  lemma {:induction false} AttrHitsMember(f: Field, attrs: seq<string>, names: seq<string>, j: nat, wantArray: bool, g: Field)
    ensures g in AttrHits(f, attrs, names, j, wantArray)
        <==> g == f && IsArray(f.fieldType) == wantArray && exists a :: a in attrs && FirstRule(names, a) == Some(j)
  {
    if attrs != [] {
      var init := attrs[..|attrs| - 1];
      var last := attrs[|attrs| - 1];
      AttrHitsMember(f, init, names, j, wantArray, g);
      assert attrs == init + [last];
      if exists a :: a in attrs && FirstRule(names, a) == Some(j) {
        var a :| a in attrs && FirstRule(names, a) == Some(j);
        if a != last {
          assert a in init;
        }
      }
    }
  }

  /** The attributes, in order, whose first matching rule is j. */
  function SelectingAttributes(attrs: seq<string>, names: seq<string>, j: nat): (r: seq<string>)
    ensures forall a :: a in r ==> a in attrs && FirstRule(names, a) == Some(j)
  {
    if attrs == [] then []
    else
      var last := attrs[|attrs| - 1];
      SelectingAttributes(attrs[..|attrs| - 1], names, j) + (if FirstRule(names, last) == Some(j) then [last] else [])
  }

  /** A field's attributes add one copy of the field per attribute that selects
      rule j: the break leaves only the loop over the rules, so two attributes of
      one rule file the field twice. */
  lemma {:induction false} AttrHitsCopies(f: Field, attrs: seq<string>, names: seq<string>, j: nat, wantArray: bool)
    ensures AttrHits(f, attrs, names, j, wantArray)
      == if IsArray(f.fieldType) == wantArray then seq(|SelectingAttributes(attrs, names, j)|, _ => f) else []
  {
    if attrs != [] {
      var init := attrs[..|attrs| - 1];
      AttrHitsCopies(f, init, names, j, wantArray);
      var n := |SelectingAttributes(init, names, j)|;
      assert seq(n, _ => f) + [f] == seq(n + 1, _ => f);
    }
  }

  /** A simple field carrying the attribute of rule 0 twice is filed twice. */
  lemma ScenarioDuplicateAttribute()
    ensures Bucket([Field("a", Named("Foo"), ["A", "A"])], ["A"], 0, false)
      == [Field("a", Named("Foo"), ["A", "A"]), Field("a", Named("Foo"), ["A", "A"])]
  {
    var f := Field("a", Named("Foo"), ["A", "A"]);
    assert FirstRule(["A"], "A") == Some(0);
    assert [f][..0] == [] && f.attributes[..1] == ["A"] && ["A"][..0] == [];
  }

  /** A field is in rule j's bucket of its kind exactly when one of its
      attributes names rule j before any other rule of that name: a field with
      attributes of several rules goes to each of them, a field whose attributes
      match no rule goes nowhere. */
  lemma {:induction false} BucketMember(fields: seq<Field>, names: seq<string>, j: nat, wantArray: bool, f: Field)
    ensures f in Bucket(fields, names, j, wantArray)
        <==> f in fields && IsArray(f.fieldType) == wantArray
             && exists a :: a in f.attributes && FirstRule(names, a) == Some(j)
  {
    if fields != [] {
      var init := fields[..|fields| - 1];
      var last := fields[|fields| - 1];
      BucketMember(init, names, j, wantArray, f);
      AttrHitsMember(last, last.attributes, names, j, wantArray, f);
      assert fields == init + [last];
    }
  }

  // ---------------------------------------------------------------------------
  // The blocks one rule injects.

  /** A rule as the weaving loop sees it: configuration, the imported
      templates, and the buckets classified for the current type. */
  datatype Rule = Rule(
    insertMethodName: string,
    simpleRef: Template,
    arrayRef: Template,
    isStaticCall: bool,
    simpleFields: seq<Field>,
    arrayFields: seq<Field>)

  predicate HasFields(r: Rule)
  {
    |r.simpleFields| > 0 || |r.arrayFields| > 0
  }

  /** One field's block: receiver, the instantiated call, the store. */
  function FieldBlock(template: Template, f: Field, arg: TypeRef): seq<Instr>
  {
    [Ldarg0, Call(template, arg), Stfld(f)]
  }

  function Blocks(template: Template, fs: seq<Field>, fromArray: bool): seq<Instr>
  {
    if fs == [] then []
    else
      var f := fs[|fs| - 1];
      Blocks(template, fs[..|fs| - 1], fromArray) + FieldBlock(template, f, GenericArg(f, fromArray))
  }

  lemma {:induction false} BlocksLayout(template: Template, fs: seq<Field>, fromArray: bool)
    ensures |Blocks(template, fs, fromArray)| == 3 * |fs|
    ensures forall i :: 0 <= i < |fs| ==>
      Blocks(template, fs, fromArray)[3 * i .. 3 * i + 3]
        == [Ldarg0, Call(template, GenericArg(fs[i], fromArray)), Stfld(fs[i])]
  {
    if fs != [] {
      var init := fs[..|fs| - 1];
      BlocksLayout(template, init, fromArray);
      var b := Blocks(template, fs, fromArray);
      var bi := Blocks(template, init, fromArray);
      forall i | 0 <= i < |fs|
        ensures b[3 * i .. 3 * i + 3] == [Ldarg0, Call(template, GenericArg(fs[i], fromArray)), Stfld(fs[i])]
      {
        if i < |init| {
          assert b[3 * i .. 3 * i + 3] == bi[3 * i .. 3 * i + 3];
        } else {
          assert b[3 * i .. 3 * i + 3] == b[|bi|..];
        }
      }
    }
  }

  /** A rule's blocks: simple fields in order, then array fields in order. */
  function RuleBlock(r: Rule): seq<Instr>
  {
    Blocks(r.simpleRef, r.simpleFields, false) + Blocks(r.arrayRef, r.arrayFields, true)
  }

  /** The layout of a rule's blocks: simple field i at offset 3i calling the
      simple template on its declared type, array field i at offset
      3 * (number of simple fields) + 3i calling the array template on its
      resolved element type. */
  lemma RuleBlockLayout(r: Rule)
    ensures var b := RuleBlock(r);
      |b| == 3 * (|r.simpleFields| + |r.arrayFields|) &&
      (forall i :: 0 <= i < |r.simpleFields| ==>
        b[3 * i .. 3 * i + 3] == [Ldarg0, Call(r.simpleRef, r.simpleFields[i].fieldType), Stfld(r.simpleFields[i])]) &&
      (forall i :: 0 <= i < |r.arrayFields| ==>
        b[3 * |r.simpleFields| + 3 * i .. 3 * |r.simpleFields| + 3 * i + 3]
          == [Ldarg0, Call(r.arrayRef, Resolve(r.arrayFields[i].fieldType)), Stfld(r.arrayFields[i])])
  {
    BlocksLength(r.simpleRef, r.simpleFields, false);
    BlocksLength(r.arrayRef, r.arrayFields, true);
    RuleBlockSimple(r);
    RuleBlockArrays(r);
  }

  lemma {:induction false} BlocksLength(template: Template, fs: seq<Field>, fromArray: bool)
    ensures |Blocks(template, fs, fromArray)| == 3 * |fs|
  {
    if fs != [] {
      BlocksLength(template, fs[..|fs| - 1], fromArray);
    }
  }

  lemma RuleBlockSimple(r: Rule)
    ensures |RuleBlock(r)| == 3 * (|r.simpleFields| + |r.arrayFields|)
    ensures forall i :: 0 <= i < |r.simpleFields| ==>
      RuleBlock(r)[3 * i .. 3 * i + 3] == [Ldarg0, Call(r.simpleRef, r.simpleFields[i].fieldType), Stfld(r.simpleFields[i])]
  {
    var s := Blocks(r.simpleRef, r.simpleFields, false);
    var a := Blocks(r.arrayRef, r.arrayFields, true);
    BlocksLayout(r.simpleRef, r.simpleFields, false);
    BlocksLength(r.arrayRef, r.arrayFields, true);
    forall i | 0 <= i < |r.simpleFields|
      ensures (s + a)[3 * i .. 3 * i + 3] == s[3 * i .. 3 * i + 3]
    {
    }
  }

  lemma RuleBlockArrays(r: Rule)
    ensures |RuleBlock(r)| == 3 * (|r.simpleFields| + |r.arrayFields|)
    ensures forall i :: 0 <= i < |r.arrayFields| ==>
      RuleBlock(r)[3 * |r.simpleFields| + 3 * i .. 3 * |r.simpleFields| + 3 * i + 3]
        == [Ldarg0, Call(r.arrayRef, Resolve(r.arrayFields[i].fieldType)), Stfld(r.arrayFields[i])]
  {
    var s := Blocks(r.simpleRef, r.simpleFields, false);
    var a := Blocks(r.arrayRef, r.arrayFields, true);
    BlocksLength(r.simpleRef, r.simpleFields, false);
    BlocksLayout(r.arrayRef, r.arrayFields, true);
    assert RuleBlock(r) == s + a;
    forall i | 0 <= i < |r.arrayFields|
      ensures RuleBlock(r)[3 * |r.simpleFields| + 3 * i .. 3 * |r.simpleFields| + 3 * i + 3]
        == [Ldarg0, Call(r.arrayRef, Resolve(r.arrayFields[i].fieldType)), Stfld(r.arrayFields[i])]
    {
      SliceRight(s, a, 3 * i, 3 * i + 3);
      assert a[3 * i .. 3 * i + 3] == [Ldarg0, Call(r.arrayRef, GenericArg(r.arrayFields[i], true)), Stfld(r.arrayFields[i])];
    }
  }

  /** GenerateCodeWithField on a method list. */
  function WeaveRule(ms: seq<MethodDef>, r: Rule): seq<MethodDef>
  {
    var (ms', k) := GetOrCreate(ms, r.insertMethodName);
    PrependBody(ms', k, RuleBlock(r))
  }

  /** Locating or creating method `name` and inserting `x` before its current first instruction. */
  function PrependTo(ms: seq<MethodDef>, name: string, x: Instr): seq<MethodDef>
  {
    var (ms', k) := GetOrCreate(ms, name);
    PrependBody(ms', k, [x])
  }

  /** Whether, after rule i, a receiver load goes to the last rule's target:
      rule i has fields and is not a static call, and the next rule is a
      static call or there is none. */
  predicate NeedsReceiver(rs: seq<Rule>, i: nat)
    requires i < |rs|
  {
    HasFields(rs[i]) && !rs[i].isStaticCall && (i == |rs| - 1 || rs[i + 1].isStaticCall)
  }

  /** The method list after the first n iterations of the rule loop. */
  function ApplyRules(ms: seq<MethodDef>, rs: seq<Rule>, n: nat): seq<MethodDef>
    requires n <= |rs|
  {
    if n == 0 then ms
    else
      var prev := ApplyRules(ms, rs, n - 1);
      var i := n - 1;
      if !HasFields(rs[i]) then prev
      else
        var woven := WeaveRule(prev, rs[i]);
        if NeedsReceiver(rs, i) then PrependTo(woven, rs[|rs| - 1].insertMethodName, Ldarg0) else woven
  }

  /** A type's method list after the multi-rule pass. */
  function WeaveTypeRules(ms: seq<MethodDef>, rs: seq<Rule>): seq<MethodDef>
    requires |rs| > 0
  {
    PrependTo(ApplyRules(ms, rs, |rs|), rs[|rs| - 1].insertMethodName, Nop)
  }

  // ---------------------------------------------------------------------------
  // Properties of the pass on one type.

  lemma {:induction false} WeaveRuleTarget(ms: seq<MethodDef>, r: Rule)
    ensures var (ms0, k) := GetOrCreate(ms, r.insertMethodName);
      var out := WeaveRule(ms, r);
      |out| == |ms0| && FirstNamed(out, r.insertMethodName) == Some(k) &&
      out[k].body == RuleBlock(r) + ms0[k].body &&
      |out[k].body| == |ms0[k].body| + 3 * (|r.simpleFields| + |r.arrayFields|) &&
      out[k] == ms0[k].(body := out[k].body) &&
      (forall i :: 0 <= i < |ms0| && i != k ==> out[i] == ms0[i])
  {
    var (ms0, k) := GetOrCreate(ms, r.insertMethodName);
    RuleBlockLayout(r);
    FirstNamedSameNames(ms0, WeaveRule(ms, r), r.insertMethodName);
  }

  lemma WeaveRuleExtends(ms: seq<MethodDef>, r: Rule)
    ensures Extends(ms, WeaveRule(ms, r))
  {
    var (ms0, k) := GetOrCreate(ms, r.insertMethodName);
    GetOrCreateExtends(ms, r.insertMethodName);
    PrependExtends(ms0, k, RuleBlock(r));
    ExtendsTransitive(ms, ms0, WeaveRule(ms, r));
  }

  lemma PrependToExtends(ms: seq<MethodDef>, name: string, x: Instr)
    ensures Extends(ms, PrependTo(ms, name, x))
  {
    var (ms0, k) := GetOrCreate(ms, name);
    GetOrCreateExtends(ms, name);
    PrependExtends(ms0, k, [x]);
    ExtendsTransitive(ms, ms0, PrependTo(ms, name, x));
  }

  lemma {:induction false} ApplyRulesExtends(ms: seq<MethodDef>, rs: seq<Rule>, n: nat)
    requires n <= |rs|
    ensures Extends(ms, ApplyRules(ms, rs, n))
  {
    if n == 0 {
      ExtendsReflexive(ms);
    } else {
      var prev := ApplyRules(ms, rs, n - 1);
      ApplyRulesExtends(ms, rs, n - 1);
      if HasFields(rs[n - 1]) {
        var woven := WeaveRule(prev, rs[n - 1]);
        WeaveRuleExtends(prev, rs[n - 1]);
        ExtendsTransitive(ms, prev, woven);
        if NeedsReceiver(rs, n - 1) {
          PrependToExtends(woven, rs[|rs| - 1].insertMethodName, Ldarg0);
          ExtendsTransitive(ms, woven, ApplyRules(ms, rs, n));
        }
      }
    }
  }

  /** Weaving never removes or renames a method, and every original body is a
      suffix of the new one. */
  lemma WeaveTypeRulesExtends(ms: seq<MethodDef>, rs: seq<Rule>)
    requires |rs| > 0
    ensures Extends(ms, WeaveTypeRules(ms, rs))
  {
    ApplyRulesExtends(ms, rs, |rs|);
    PrependToExtends(ApplyRules(ms, rs, |rs|), rs[|rs| - 1].insertMethodName, Nop);
    ExtendsTransitive(ms, ApplyRules(ms, rs, |rs|), WeaveTypeRules(ms, rs));
  }

  /** Every type, with marked fields or without, ends up with a method named
      after the last rule's target whose first instruction is Nop. */
  lemma WeaveTypeRulesNop(ms: seq<MethodDef>, rs: seq<Rule>)
    requires |rs| > 0
    ensures var out := WeaveTypeRules(ms, rs);
      var k := FirstNamed(out, rs[|rs| - 1].insertMethodName);
      k.Some? && |out[k.value].body| > 0 && out[k.value].body[0] == Nop
  {
    var name := rs[|rs| - 1].insertMethodName;
    var applied := ApplyRules(ms, rs, |rs|);
    var (ms0, k) := GetOrCreate(applied, name);
    FirstNamedSameNames(ms0, WeaveTypeRules(ms, rs), name);
  }

  /** Prepending to a method that already exists keeps its index and the names. */
  lemma PrependToExisting(ms: seq<MethodDef>, name: string, k: nat, x: Instr)
    requires k < |ms| && FirstNamed(ms, name) == Some(k)
    ensures var out := PrependTo(ms, name, x);
      |out| == |ms| && FirstNamed(out, name) == Some(k) && out[k].body == [x] + ms[k].body &&
      (forall i :: 0 <= i < |ms| && i != k ==> out[i] == ms[i])
  {
    var out := PrependBody(ms, k, [x]);
    assert PrependTo(ms, name, x) == out;
    FirstNamedSameNames(ms, out, name);
  }

  /** One iteration of the rule loop on a method list in which the rule's
      target already exists at index k (and is the last rule's target too):
      the rule's block, and the receiver load when `recv`, go in front of it. */
  lemma {:induction false} SharedTargetStep(prev: seq<MethodDef>, r: Rule, k: nat, recv: bool)
    requires k < |prev| && FirstNamed(prev, r.insertMethodName) == Some(k)
    ensures var woven := WeaveRule(prev, r);
      var out := if recv then PrependTo(woven, r.insertMethodName, Ldarg0) else woven;
      |out| == |prev| && FirstNamed(out, r.insertMethodName) == Some(k) &&
      out[k].body == (if recv then [Ldarg0] else []) + RuleBlock(r) + prev[k].body &&
      (forall i :: 0 <= i < |prev| && i != k ==> out[i] == prev[i])
  {
    var name := r.insertMethodName;
    var woven := PrependBody(prev, k, RuleBlock(r));
    assert WeaveRule(prev, r) == woven;
    FirstNamedSameNames(prev, woven, name);
    if recv {
      var out := PrependBody(woven, k, [Ldarg0]);
      assert PrependTo(woven, name, Ldarg0) == out;
      FirstNamedSameNames(prev, out, name);
      assert out[k].body == [Ldarg0] + (RuleBlock(r) + prev[k].body);
    }
  }

  lemma Regroup(a: seq<Instr>, b: seq<Instr>, c: seq<Instr>, d: seq<Instr>, e: seq<Instr>, f: seq<Instr>)
    ensures a + (b + c + (d + e + f)) == a + b + c + d + e + f
  {
  }

  /** The rule loop over two rules with fields and one target (before the final Nop). */
  lemma TwoRulesApplied(ms: seq<MethodDef>, r1: Rule, r2: Rule, ms0: seq<MethodDef>, k: nat)
      returns (d: seq<MethodDef>)
    requires r1.insertMethodName == r2.insertMethodName && HasFields(r1) && HasFields(r2)
    requires (ms0, k) == GetOrCreate(ms, r1.insertMethodName)
    ensures WeaveTypeRules(ms, [r1, r2]) == PrependTo(d, r1.insertMethodName, Nop)
    ensures |d| == |ms0| && k < |d| && FirstNamed(d, r1.insertMethodName) == Some(k)
    ensures d[k].body
      == (if !r2.isStaticCall then [Ldarg0] else []) + RuleBlock(r2)
         + ((if !r1.isStaticCall && r2.isStaticCall then [Ldarg0] else []) + RuleBlock(r1) + ms0[k].body)
    ensures forall i :: 0 <= i < |ms0| && i != k ==> d[i] == ms0[i]
  {
    var name := r1.insertMethodName;
    var rs := [r1, r2];
    var recv1 := !r1.isStaticCall && r2.isStaticCall;
    var recv2 := !r2.isStaticCall;
    assert rs[0] == r1 && rs[1] == r2 && |rs| == 2;
    assert NeedsReceiver(rs, 0) == recv1;
    assert NeedsReceiver(rs, 1) == recv2;
    assert ApplyRules(ms, rs, 0) == ms;
    var w1 := WeaveRule(ms, r1);
    assert w1 == WeaveRule(ms0, r1);
    var b := if recv1 then PrependTo(w1, name, Ldarg0) else w1;
    assert ApplyRules(ms, rs, 1) == b;
    SharedTargetStep(ms0, r1, k, recv1);
    var w2 := WeaveRule(b, r2);
    d := if recv2 then PrependTo(w2, name, Ldarg0) else w2;
    assert ApplyRules(ms, rs, 2) == d;
    SharedTargetStep(b, r2, k, recv2);
  }

  /** Two rules with fields and one target: the second rule's block lands in
      front of the first one's, each preceded by a receiver load exactly where
      NeedsReceiver says, and the Nop in front of everything. */
  lemma TwoRulesSharedTarget(ms: seq<MethodDef>, r1: Rule, r2: Rule, ms0: seq<MethodDef>, k: nat)
    requires r1.insertMethodName == r2.insertMethodName && HasFields(r1) && HasFields(r2)
    requires (ms0, k) == GetOrCreate(ms, r1.insertMethodName)
    ensures |WeaveTypeRules(ms, [r1, r2])| == |ms0|
    ensures FirstNamed(WeaveTypeRules(ms, [r1, r2]), r1.insertMethodName) == Some(k)
    ensures WeaveTypeRules(ms, [r1, r2])[k].body
      == [Nop] + (if !r2.isStaticCall then [Ldarg0] else []) + RuleBlock(r2)
         + (if !r1.isStaticCall && r2.isStaticCall then [Ldarg0] else []) + RuleBlock(r1)
         + ms0[k].body
    ensures forall i :: 0 <= i < |ms0| && i != k ==> WeaveTypeRules(ms, [r1, r2])[i] == ms0[i]
  {
    var d := TwoRulesApplied(ms, r1, r2, ms0, k);
    PrependToExisting(d, r1.insertMethodName, k, Nop);
    var p1: seq<Instr> := if !r1.isStaticCall && r2.isStaticCall then [Ldarg0] else [];
    var p2: seq<Instr> := if !r2.isStaticCall then [Ldarg0] else [];
    Regroup([Nop], p2, RuleBlock(r2), p1, RuleBlock(r1), ms0[k].body);
  }

  /** A rule whose directive matches no field of the type injects nothing:
      the loop skips it. */
  /** The iteration of a rule whose buckets are empty changes nothing. */
  lemma RuleWithoutFieldsSkipped(ms: seq<MethodDef>, rs: seq<Rule>, n: nat)
    requires 0 < n <= |rs| && !HasFields(rs[n - 1])
    ensures ApplyRules(ms, rs, n) == ApplyRules(ms, rs, n - 1)
  {
  }

  /** A rule without fields still counts for the receiver load of the rule before
      it: with a non-static rule `a` that has fields, followed by a non-static
      rule `b` without any, no receiver load is emitted, whereas `a` alone (then
      the last rule) is followed by one. So a fieldless rule cannot be dropped
      from the list without changing the result. */
  lemma FieldlessRuleNotRemovable(ms: seq<MethodDef>, a: Rule, b: Rule)
    requires HasFields(a) && !a.isStaticCall && !HasFields(b) && !b.isStaticCall
    ensures ApplyRules(ms, [a, b], 2) != ApplyRules(ms, [a], 1)
  {
    var name := a.insertMethodName;
    var w := WeaveRule(ms, a);
    assert !NeedsReceiver([a, b], 0) && NeedsReceiver([a], 0);
    assert ApplyRules(ms, [a, b], 0) == ms && ApplyRules(ms, [a], 0) == ms;
    assert ApplyRules(ms, [a, b], 2) == w;
    assert ApplyRules(ms, [a], 1) == PrependTo(w, name, Ldarg0);
    WeaveRuleTarget(ms, a);
    var k := GetOrCreate(ms, name).1;
    PrependToExisting(w, name, k, Ldarg0);
    assert |PrependTo(w, name, Ldarg0)[k].body| == |w[k].body| + 1;
  }

  // ---------------------------------------------------------------------------
  // The rules as MethodPair objects.

  /** The first generic public method of the capability type with the simple name. */
  function SimpleLookup(p: MethodPair): Option<Template>
  {
    LookupTemplate(p.whereToFind, p.replaceMethodNameSimple, false)
  }

  /** The first generic parameterless public method with the array name. */
  function ArrayLookup(p: MethodPair): Option<Template>
  {
    LookupTemplate(p.whereToFind, p.replaceMethodNameArray, true)
  }

  predicate LookupsSucceed(pairs: seq<MethodPair>)
  {
    forall j :: 0 <= j < |pairs| ==> SimpleLookup(pairs[j]).Some? && ArrayLookup(pairs[j]).Some?
  }

  /** The references a pair holds once a module has imported its templates. */
  predicate ReferencesImported(p: MethodPair)
    reads p
  {
    p.simpleMethodReference == SimpleLookup(p) && p.arrayMethodReference == ArrayLookup(p)
    && p.simpleMethodReference.Some? && p.arrayMethodReference.Some?
  }

  /** The rule a pair stands for in its current state. */
  function RuleOf(p: MethodPair): Rule
    reads p`simpleMethodReference, p`arrayMethodReference, p`simpleFields, p`arrayFields
    requires p.simpleMethodReference.Some? && p.arrayMethodReference.Some?
  {
    Rule(p.insertMethodName, p.simpleMethodReference.value, p.arrayMethodReference.value,
         p.isStaticCall, p.simpleFields, p.arrayFields)
  }

  /** The rule pair `j` stands for on a type with the given fields. */
  function PairRule(p: MethodPair, names: seq<string>, fields: seq<Field>, j: nat): Rule
    requires SimpleLookup(p).Some? && ArrayLookup(p).Some?
  {
    Rule(p.insertMethodName, SimpleLookup(p).value, ArrayLookup(p).value,
         p.isStaticCall, Bucket(fields, names, j, false), Bucket(fields, names, j, true))
  }

  function RulesUpTo(pairs: seq<MethodPair>, names: seq<string>, fields: seq<Field>, n: nat): (rs: seq<Rule>)
    requires n <= |pairs| && LookupsSucceed(pairs)
    ensures |rs| == n
  {
    if n == 0 then [] else RulesUpTo(pairs, names, fields, n - 1) + [PairRule(pairs[n - 1], names, fields, n - 1)]
  }

  lemma {:induction false} RulesUpToAt(pairs: seq<MethodPair>, names: seq<string>, fields: seq<Field>, n: nat, j: nat)
    requires j < n <= |pairs| && LookupsSucceed(pairs)
    ensures RulesUpTo(pairs, names, fields, n)[j] == PairRule(pairs[j], names, fields, j)
  {
    if j < n - 1 {
      RulesUpToAt(pairs, names, fields, n - 1, j);
    }
  }

  /** The rules applied to a type with the given fields, once the references
      are imported and the buckets classified. */
  function TypeRules(pairs: seq<MethodPair>, fields: seq<Field>): (rs: seq<Rule>)
    requires LookupsSucceed(pairs)
    ensures |rs| == |pairs|
  {
    RulesUpTo(pairs, AttributeNames(pairs), fields, |pairs|)
  }

  /** Rules 0 to n - 1 that have fields target a method with an instruction to
      insert before, or one not yet present. */
  predicate TargetsReady(ms: seq<MethodDef>, rs: seq<Rule>, n: nat)
    requires n <= |rs|
  {
    n == 0 || (TargetsReady(ms, rs, n - 1) && (HasFields(rs[n - 1]) ==> Targetable(ms, rs[n - 1].insertMethodName)))
  }

  /** What the pass needs of a type's methods: every target some rule injects
      into, and the last rule's target, if present, has an instruction to
      insert before. */
  predicate RulesReady(ms: seq<MethodDef>, rs: seq<Rule>)
  {
    TargetsReady(ms, rs, |rs|) && (|rs| > 0 ==> Targetable(ms, rs[|rs| - 1].insertMethodName))
  }

  lemma {:induction false} TargetsReadyAt(ms: seq<MethodDef>, rs: seq<Rule>, n: nat, j: nat)
    requires j < n <= |rs| && TargetsReady(ms, rs, n) && HasFields(rs[j])
    ensures Targetable(ms, rs[j].insertMethodName)
  {
    if j < n - 1 {
      TargetsReadyAt(ms, rs, n - 1, j);
    }
  }

  lemma {:induction false} TargetsReadyIff(ms: seq<MethodDef>, rs: seq<Rule>, n: nat)
    requires n <= |rs|
    ensures TargetsReady(ms, rs, n) <==>
      forall j :: 0 <= j < n && HasFields(rs[j]) ==> Targetable(ms, rs[j].insertMethodName)
  {
    if n > 0 {
      TargetsReadyIff(ms, rs, n - 1);
    }
  }

  lemma RulesReadyExtends(ms: seq<MethodDef>, ms': seq<MethodDef>, rs: seq<Rule>)
    requires Extends(ms, ms') && RulesReady(ms, rs)
    ensures RulesReady(ms', rs)
  {
    TargetsReadyIff(ms, rs, |rs|);
    TargetsReadyIff(ms', rs, |rs|);
    forall j | 0 <= j < |rs| && HasFields(rs[j]) ensures Targetable(ms', rs[j].insertMethodName) {
      TargetableExtends(ms, ms', rs[j].insertMethodName);
    }
    if |rs| > 0 {
      TargetableExtends(ms, ms', rs[|rs| - 1].insertMethodName);
    }
  }

  /** On a targetable name, the method GetOrCreateMethod returns has a first instruction. */
  lemma GetOrCreateTargetable(ms: seq<MethodDef>, name: string)
    requires Targetable(ms, name)
    ensures |GetOrCreate(ms, name).0[GetOrCreate(ms, name).1].body| > 0
  {
  }

  /** The filter in front of the per-type work tests the base type for being
      present and absent at once, so it skips no type. */
  predicate SkipsType(baseTypeName: Option<string>)
  {
    baseTypeName != None && baseTypeName == None && baseTypeName == Some(MonoBehaviourName)
  }

  lemma SkipsNoType(baseTypeName: Option<string>)
    ensures !SkipsType(baseTypeName)
  {
  }

  // ---------------------------------------------------------------------------
  // The methods.

  /** The first method with the name, or a fresh private `void` method with
      the body `ret` appended to the type. */
  method GetOrCreateMethod(methodName: string, t: TypeDefinition) returns (k: nat)
    modifies t
    ensures (t.methods, k) == GetOrCreate(old(t.methods), methodName)
  {
    var i := 0;
    while i < |t.methods|
      invariant 0 <= i <= |t.methods|
      invariant forall j :: 0 <= j < i ==> t.methods[j].name != methodName
    {
      if t.methods[i].name == methodName {
        return i;
      }
      i := i + 1;
    }
    t.methods := t.methods + [NewMethod(methodName)];
    k := |t.methods| - 1;
  }

  /** Inserts `x` before the first instruction of method `k`. */
  method InsertAtHead(t: TypeDefinition, k: nat, x: Instr)
    requires k < |t.methods| && |t.methods[k].body| > 0
    modifies t
    ensures t.methods == PrependBody(old(t.methods), k, [x])
  {
    var m := t.methods[k];
    var first := m.body[0];
    assert InsertAt(m.body, 0, x) == [x] + m.body by {
      assert m.body[..0] == [] && m.body[0..] == m.body;
    }
    t.methods := t.methods[k := m.(body := InsertAt(m.body, 0, x))];
    assert t.methods[k].body[1] == first;
  }

  /** The blocks for one more field of a bucket: the last block comes last. */
  lemma BlocksStep(template: Template, fs: seq<Field>, i: nat, fromArray: bool)
    requires i < |fs|
    ensures Blocks(template, fs[..i + 1], fromArray)
         == Blocks(template, fs[..i], fromArray) + FieldBlock(template, fs[i], GenericArg(fs[i], fromArray))
  {
    assert fs[..i + 1][..i] == fs[..i];
  }

  /** Inserts the block for field `f`, one instruction at a time, in front of
      the captured first instruction, which sits at `first` in `body`. */
  method InsertFieldBlock(body: seq<Instr>, first: nat, template: Template, f: Field, fromArray: bool,
                          ghost prefix: seq<Instr>, ghost orig: seq<Instr>)
    returns (body': seq<Instr>, first': nat)
    requires body == prefix + orig && first == |prefix|
    ensures body' == prefix + FieldBlock(template, f, GenericArg(f, fromArray)) + orig
    ensures first' == first + 3
  {
    // for the array bucket, the resolved element type imported into the module as it is
    var arg := if fromArray then Resolve(f.fieldType) else f.fieldType;
    body' := InsertAt(body, first, Ldarg0);
    body' := InsertAt(body', first + 1, Call(template, arg));
    body' := InsertAt(body', first + 2, Stfld(f));
    first' := first + 3;
    InsertThreeBeforeFirst(prefix, orig, Ldarg0, Call(template, arg), Stfld(f));
  }

  /** Inserts the blocks for `fs`, one field at a time, in front of the
      captured first instruction, which sits at `first` in `body`. */
  method InsertBlocks(body: seq<Instr>, first: nat, template: Template, fs: seq<Field>, fromArray: bool,
                      ghost done: seq<Instr>, ghost orig: seq<Instr>)
    returns (body': seq<Instr>, first': nat)
    requires body == done + orig && first == |done|
    ensures body' == done + Blocks(template, fs, fromArray) + orig
    ensures first' == |done + Blocks(template, fs, fromArray)|
  {
    body', first' := body, first;
    for i := 0 to |fs|
      invariant body' == done + Blocks(template, fs[..i], fromArray) + orig
      invariant first' == |done + Blocks(template, fs[..i], fromArray)|
    {
      body', first' := InsertFieldBlock(body', first', template, fs[i], fromArray,
                                        done + Blocks(template, fs[..i], fromArray), orig);
      BlocksStep(template, fs, i, fromArray);
    }
    assert fs[..|fs|] == fs;
  }

  /** Locates or creates the pair's target method and inserts, in front of
      its first instruction, a block for every simple field and then for
      every array field of the pair's buckets. */
  method GenerateCodeWithField(pair: MethodPair, t: TypeDefinition)
    requires pair.simpleMethodReference.Some? && pair.arrayMethodReference.Some?
    requires Targetable(t.methods, pair.insertMethodName)
    modifies t
    ensures t.methods == WeaveRule(old(t.methods), RuleOf(pair))
  {
    GetOrCreateTargetable(t.methods, pair.insertMethodName);
    var k := GetOrCreateMethod(pair.insertMethodName, t);
    var body := t.methods[k].body;
    var first := body[0];
    var pos: nat := 0;
    ghost var orig := body;
    body, pos := InsertBlocks(body, pos, pair.simpleMethodReference.value, pair.simpleFields, false, [], orig);
    body, pos := InsertBlocks(body, pos, pair.arrayMethodReference.value, pair.arrayFields, true,
                              Blocks(pair.simpleMethodReference.value, pair.simpleFields, false), orig);
    assert body[pos] == first;
    t.methods := t.methods[k := t.methods[k].(body := body)];
  }

  /** Files field `f` under the first pair named after attribute `a`, in the
      bucket of its kind; no pair of that name, no change. */
  method FileUnderFirstRule(pairs: seq<MethodPair>, f: Field, a: string)
    requires Distinct(pairs)
    modifies (set p | p in pairs)`simpleFields, (set p | p in pairs)`arrayFields
    ensures forall j :: 0 <= j < |pairs| ==>
      var hit := FirstRule(AttributeNames(pairs), a) == Some(j);
      pairs[j].simpleFields == old(pairs[j].simpleFields) + (if hit && !IsArray(f.fieldType) then [f] else []) &&
      pairs[j].arrayFields == old(pairs[j].arrayFields) + (if hit && IsArray(f.fieldType) then [f] else [])
  {
    ghost var names := AttributeNames(pairs);
    var j := 0;
    while j < |pairs| && pairs[j].attributeName != a
      invariant 0 <= j <= |pairs|
      invariant forall i :: 0 <= i < j ==> names[i] != a
    {
      j := j + 1;
    }
    if j < |pairs| {
      assert FirstRule(names, a) == Some(j);
      DistinctOthers(pairs, j);
      if IsArray(f.fieldType) {
        pairs[j].arrayFields := pairs[j].arrayFields + [f];
      } else {
        pairs[j].simpleFields := pairs[j].simpleFields + [f];
      }
    } else {
      assert FirstRule(names, a) == None;
    }
  }

  /** One more attribute adds at most the field itself to a bucket. */
  lemma AttrHitsStep(f: Field, attrs: seq<string>, ai: nat, names: seq<string>, j: nat, wantArray: bool)
    requires ai < |attrs|
    ensures AttrHits(f, attrs[..ai + 1], names, j, wantArray) ==
      AttrHits(f, attrs[..ai], names, j, wantArray)
        + (if FirstRule(names, attrs[ai]) == Some(j) && IsArray(f.fieldType) == wantArray then [f] else [])
  {
    assert attrs[..ai + 1][..ai] == attrs[..ai];
  }

  /** Files `f` under the first rule of its attribute `ai`, in terms of the
      buckets' classification of `done` and of the attributes before `ai`. */
  method FileAttribute(f: Field, ai: nat, pairs: seq<MethodPair>, ghost done: seq<Field>)
    requires ai < |f.attributes| && Distinct(pairs)
    requires forall j :: 0 <= j < |pairs| ==>
      pairs[j].simpleFields == Bucket(done, AttributeNames(pairs), j, false) + AttrHits(f, f.attributes[..ai], AttributeNames(pairs), j, false) &&
      pairs[j].arrayFields == Bucket(done, AttributeNames(pairs), j, true) + AttrHits(f, f.attributes[..ai], AttributeNames(pairs), j, true)
    modifies (set p | p in pairs)`simpleFields, (set p | p in pairs)`arrayFields
    ensures forall j :: 0 <= j < |pairs| ==>
      pairs[j].simpleFields == Bucket(done, AttributeNames(pairs), j, false) + AttrHits(f, f.attributes[..ai + 1], AttributeNames(pairs), j, false) &&
      pairs[j].arrayFields == Bucket(done, AttributeNames(pairs), j, true) + AttrHits(f, f.attributes[..ai + 1], AttributeNames(pairs), j, true)
  {
    ghost var names := AttributeNames(pairs);
    FileUnderFirstRule(pairs, f, f.attributes[ai]);
    forall j | 0 <= j < |pairs|
      ensures pairs[j].simpleFields == Bucket(done, names, j, false) + AttrHits(f, f.attributes[..ai + 1], names, j, false)
      ensures pairs[j].arrayFields == Bucket(done, names, j, true) + AttrHits(f, f.attributes[..ai + 1], names, j, true)
    {
      FiledBucket(f, ai, names, j, false, done, old(pairs[j].simpleFields), pairs[j].simpleFields);
      FiledBucket(f, ai, names, j, true, done, old(pairs[j].arrayFields), pairs[j].arrayFields);
    }
  }

  /** A bucket that held the classification of `done` and of the attributes
      of `f` before `ai`, and has received `f` if attribute `ai` picks its rule,
      holds the classification up to attribute `ai + 1`. */
  lemma FiledBucket(f: Field, ai: nat, names: seq<string>, j: nat, wantArray: bool, done: seq<Field>,
                    bucket: seq<Field>, bucket': seq<Field>)
    requires ai < |f.attributes|
    requires bucket == Bucket(done, names, j, wantArray) + AttrHits(f, f.attributes[..ai], names, j, wantArray)
    requires bucket' == bucket + (if FirstRule(names, f.attributes[ai]) == Some(j) && IsArray(f.fieldType) == wantArray
                                  then [f] else [])
    ensures bucket' == Bucket(done, names, j, wantArray) + AttrHits(f, f.attributes[..ai + 1], names, j, wantArray)
  {
    AttrHitsStep(f, f.attributes, ai, names, j, wantArray);
  }

  /** Files one field under the first rule of each of its attributes: buckets
      holding the classification of `done` then hold that of `done + [f]`. */
  method ClassifyField(f: Field, pairs: seq<MethodPair>, ghost done: seq<Field>, ghost next: seq<Field>)
    requires Distinct(pairs) && next == done + [f]
    requires forall j :: 0 <= j < |pairs| ==>
      pairs[j].simpleFields == Bucket(done, AttributeNames(pairs), j, false) &&
      pairs[j].arrayFields == Bucket(done, AttributeNames(pairs), j, true)
    modifies (set p | p in pairs)`simpleFields, (set p | p in pairs)`arrayFields
    ensures forall j :: 0 <= j < |pairs| ==>
      pairs[j].simpleFields == Bucket(next, AttributeNames(pairs), j, false) &&
      pairs[j].arrayFields == Bucket(next, AttributeNames(pairs), j, true)
  {
    ghost var names := AttributeNames(pairs);
    assert next[..|done|] == done;
    for ai := 0 to |f.attributes|
      invariant forall j :: 0 <= j < |pairs| ==>
        pairs[j].simpleFields == Bucket(done, names, j, false) + AttrHits(f, f.attributes[..ai], names, j, false) &&
        pairs[j].arrayFields == Bucket(done, names, j, true) + AttrHits(f, f.attributes[..ai], names, j, true)
    {
      FileAttribute(f, ai, pairs, done);
    }
    assert f.attributes[..|f.attributes|] == f.attributes;
  }

  /** Fills the (empty) buckets from the fields' attributes, field by field. */
  method ClassifyFields(fields: seq<Field>, pairs: seq<MethodPair>)
    requires Distinct(pairs)
    requires forall j :: 0 <= j < |pairs| ==> pairs[j].simpleFields == [] && pairs[j].arrayFields == []
    modifies (set p | p in pairs)`simpleFields, (set p | p in pairs)`arrayFields
    ensures forall j :: 0 <= j < |pairs| ==>
      pairs[j].simpleFields == Bucket(fields, AttributeNames(pairs), j, false) &&
      pairs[j].arrayFields == Bucket(fields, AttributeNames(pairs), j, true)
  {
    ghost var names := AttributeNames(pairs);
    for fi := 0 to |fields|
      invariant forall j :: 0 <= j < |pairs| ==>
        pairs[j].simpleFields == Bucket(fields[..fi], names, j, false) &&
        pairs[j].arrayFields == Bucket(fields[..fi], names, j, true)
    {
      assert fields[..fi + 1] == fields[..fi] + [fields[fi]];
      ClassifyField(fields[fi], pairs, fields[..fi], fields[..fi + 1]);
    }
    assert fields[..|fields|] == fields;
  }


  /** Whether pairs 0 to n - 1 hold in their buckets the classification of `fields`. */
  predicate ClassifiedUpTo(pairs: seq<MethodPair>, names: seq<string>, fields: seq<Field>, n: nat)
    requires n <= |pairs|
    reads (set p | p in pairs)`simpleFields, (set p | p in pairs)`arrayFields
  {
    n == 0 || (ClassifiedUpTo(pairs, names, fields, n - 1)
               && pairs[n - 1].simpleFields == Bucket(fields, names, n - 1, false)
               && pairs[n - 1].arrayFields == Bucket(fields, names, n - 1, true))
  }

  /** Whether every pair's buckets hold the classification of `fields`. */
  predicate Classified(pairs: seq<MethodPair>, fields: seq<Field>)
    reads (set p | p in pairs)`simpleFields, (set p | p in pairs)`arrayFields
  {
    ClassifiedUpTo(pairs, AttributeNames(pairs), fields, |pairs|)
  }

  lemma {:induction false} ClassifiedUpToIff(pairs: seq<MethodPair>, names: seq<string>, fields: seq<Field>, n: nat)
    requires n <= |pairs|
    ensures ClassifiedUpTo(pairs, names, fields, n) <==>
      forall j :: 0 <= j < n ==>
        pairs[j].simpleFields == Bucket(fields, names, j, false) && pairs[j].arrayFields == Bucket(fields, names, j, true)
  {
    if n > 0 {
      ClassifiedUpToIff(pairs, names, fields, n - 1);
    }
  }

  /** Empties every pair's buckets. */
  method ClearBuckets(pairs: seq<MethodPair>)
    modifies (set p | p in pairs)`simpleFields, (set p | p in pairs)`arrayFields
    ensures forall j :: 0 <= j < |pairs| ==> pairs[j].simpleFields == [] && pairs[j].arrayFields == []
  {
    for j := 0 to |pairs|
      invariant forall i :: 0 <= i < j ==> pairs[i].simpleFields == [] && pairs[i].arrayFields == []
    {
      pairs[j].Clear();
    }
  }

  /** The rule loop over classified pairs: each pair with fields weaves its
      blocks, followed by a receiver load into the last pair's target where
      NeedsReceiver says so. */
  method RunRules(t: TypeDefinition, pairs: seq<MethodPair>, ghost rs: seq<Rule>)
    requires |rs| == |pairs|
    requires forall j :: 0 <= j < |pairs| ==>
      pairs[j].simpleMethodReference.Some? && pairs[j].arrayMethodReference.Some? && RuleOf(pairs[j]) == rs[j]
    requires RulesReady(t.methods, rs)
    modifies t
    ensures t.methods == ApplyRules(old(t.methods), rs, |rs|)
  {
    ghost var ms0 := t.methods;
    for i := 0 to |pairs|
      invariant t.methods == ApplyRules(ms0, rs, i)
    {
      var pair := pairs[i];
      var previousWasStatic := true;
      ApplyRulesExtends(ms0, rs, i);
      RulesReadyExtends(ms0, t.methods, rs);
      if |pair.simpleFields| > 0 || |pair.arrayFields| > 0 {
        if i < |pairs| - 1 {
          previousWasStatic := pairs[i + 1].isStaticCall;
        }
        ghost var prev := t.methods;
        TargetsReadyAt(t.methods, rs, |rs|, i);
        GenerateCodeWithField(pair, t);
        if previousWasStatic && !pair.isStaticCall {
          WeaveRuleExtends(prev, rs[i]);
          RulesReadyExtends(prev, t.methods, rs);
          PrependInstr(t, pairs[|pairs| - 1].insertMethodName, Ldarg0);
        }
      }
    }
  }

  /** Puts `x` in front of the first instruction of the method named `name`,
      creating that method first if the type lacks it. */
  method PrependInstr(t: TypeDefinition, name: string, x: Instr)
    requires Targetable(t.methods, name)
    modifies t
    ensures t.methods == PrependTo(old(t.methods), name, x)
  {
    GetOrCreateTargetable(t.methods, name);
    var k := GetOrCreateMethod(name, t);
    InsertAtHead(t, k, x);
  }

  /** Buckets holding the classification of `fields` are the pairs' state
      TypeRules describes: the pairs are Classified, and each pair states its rule. */
  lemma ClassifiedRules(pairs: seq<MethodPair>, fields: seq<Field>)
    requires LookupsSucceed(pairs)
    requires forall j :: 0 <= j < |pairs| ==> ReferencesImported(pairs[j])
    requires forall j :: 0 <= j < |pairs| ==>
      pairs[j].simpleFields == Bucket(fields, AttributeNames(pairs), j, false) &&
      pairs[j].arrayFields == Bucket(fields, AttributeNames(pairs), j, true)
    ensures Classified(pairs, fields)
    ensures forall j :: 0 <= j < |pairs| ==>
      pairs[j].simpleMethodReference.Some? && pairs[j].arrayMethodReference.Some? &&
      RuleOf(pairs[j]) == TypeRules(pairs, fields)[j]
  {
    ClassifiedUpToIff(pairs, AttributeNames(pairs), fields, |pairs|);
    forall j | 0 <= j < |pairs|
      ensures RuleOf(pairs[j]) == TypeRules(pairs, fields)[j]
    {
      RulesUpToAt(pairs, AttributeNames(pairs), fields, |pairs|, j);
    }
  }

  /** Clears every pair's buckets and classifies `fields` into them. */
  method ClassifyType(fields: seq<Field>, pairs: seq<MethodPair>)
    requires Distinct(pairs)
    modifies (set p | p in pairs)`simpleFields, (set p | p in pairs)`arrayFields
    ensures forall j :: 0 <= j < |pairs| ==>
      pairs[j].simpleFields == Bucket(fields, AttributeNames(pairs), j, false) &&
      pairs[j].arrayFields == Bucket(fields, AttributeNames(pairs), j, true)
  {
    ClearBuckets(pairs);
    ClassifyFields(fields, pairs);
  }

  /** The work on one type: clear every pair's buckets, classify the fields,
      run the rules in order with the receiver loads, and put the Nop in front
      of the last rule's target. */
  method GenerateForType(t: TypeDefinition, pairs: seq<MethodPair>)
    requires |pairs| > 0 && Distinct(pairs) && LookupsSucceed(pairs)
    requires forall j :: 0 <= j < |pairs| ==> ReferencesImported(pairs[j])
    requires RulesReady(t.methods, TypeRules(pairs, t.fields))
    modifies t, (set p | p in pairs)`simpleFields, (set p | p in pairs)`arrayFields
    ensures t.methods == WeaveTypeRules(old(t.methods), TypeRules(pairs, t.fields))
  {
    ClassifyType(t.fields, pairs);
    ClassifiedRules(pairs, t.fields);
    ghost var rs := TypeRules(pairs, t.fields);
    ghost var ms0 := t.methods;
    RunRules(t, pairs, rs);
    ApplyRulesExtends(ms0, rs, |pairs|);
    RulesReadyExtends(ms0, t.methods, rs);
    PrependInstr(t, pairs[|pairs| - 1].insertMethodName, Nop);
  }

  /** The templates reflection found for a pair. */
  predicate InfosResolved(p: MethodPair)
    reads p`simpleMethodInfo, p`arrayMethodInfo
  {
    p.simpleMethodInfo == SimpleLookup(p) && p.arrayMethodInfo == ArrayLookup(p)
  }

  /** Imports every pair's templates into the current module. */
  method ImportReferences(pairs: seq<MethodPair>)
    requires LookupsSucceed(pairs)
    requires forall j :: 0 <= j < |pairs| ==> InfosResolved(pairs[j])
    modifies (set p | p in pairs)`simpleMethodReference, (set p | p in pairs)`arrayMethodReference
    ensures forall j :: 0 <= j < |pairs| ==> ReferencesImported(pairs[j])
  {
    for j := 0 to |pairs|
      invariant forall i :: 0 <= i < j ==> ReferencesImported(pairs[i])
    {
      // ImportReference binds the reflected template into this module as it is.
      pairs[j].simpleMethodReference := pairs[j].simpleMethodInfo;
      pairs[j].arrayMethodReference := pairs[j].arrayMethodInfo;
    }
  }

  /** What weaving a type needs of the pairs: at least one, no pair twice,
      both templates found and imported. */
  predicate PairsReady(pairs: seq<MethodPair>)
    reads set p | p in pairs
  {
    |pairs| > 0 && Distinct(pairs) && LookupsSucceed(pairs)
    && forall j :: 0 <= j < |pairs| ==> ReferencesImported(pairs[j])
  }

  // ---------------------------------------------------------------------------
  // Lists of types, as a module or the whole assembly holds them.

  /** The method list weaving gives type `t` when it has the methods `ms`:
      the rules its fields produce, then the Nop in front of the last rule's target. */
  function WovenType(ms: seq<MethodDef>, t: TypeDefinition, pairs: seq<MethodPair>): seq<MethodDef>
    requires |pairs| > 0 && LookupsSucceed(pairs)
  {
    WeaveTypeRules(ms, TypeRules(pairs, t.fields))
  }

  /** Whether type `t`, with the methods `ms`, has the targets its rules need. */
  predicate TypeReady(ms: seq<MethodDef>, t: TypeDefinition, pairs: seq<MethodPair>)
    requires LookupsSucceed(pairs)
  {
    RulesReady(ms, TypeRules(pairs, t.fields))
  }

  /** Whether every type of `ts`, with the method lists `mss`, has the targets its rules need. */
  predicate AllReady(mss: seq<seq<MethodDef>>, ts: seq<TypeDefinition>, pairs: seq<MethodPair>)
    requires |mss| == |ts| && (|ts| > 0 ==> LookupsSucceed(pairs))
  {
    forall i {:trigger TypeReady(mss[i], ts[i], pairs)} :: 0 <= i < |ts| ==> TypeReady(mss[i], ts[i], pairs)
  }

  /** Readiness is a property of each type alone: the types of a stretch of a
      list ready as a whole are ready as a list of their own. */
  lemma AllReadySegment(mss: seq<seq<MethodDef>>, ts: seq<TypeDefinition>, sub: seq<seq<MethodDef>>,
                        subTs: seq<TypeDefinition>, lo: nat, pairs: seq<MethodPair>)
    requires |mss| == |ts| && |sub| == |subTs| && lo + |subTs| <= |ts| && (|ts| > 0 ==> LookupsSucceed(pairs))
    requires forall k :: 0 <= k < |subTs| ==> sub[k] == mss[lo + k] && subTs[k] == ts[lo + k]
    requires AllReady(mss, ts, pairs)
    ensures AllReady(sub, subTs, pairs)
  {
    forall k | 0 <= k < |subTs| ensures TypeReady(sub[k], subTs[k], pairs) {
      assert sub[k] == mss[lo + k] && subTs[k] == ts[lo + k];
      assert TypeReady(mss[lo + k], ts[lo + k], pairs);
    }
  }

  /** Whether `want` lists, for every type of `ts`, the methods weaving gives
      it from its list in `before`. */
  predicate WeavesTo(before: seq<seq<MethodDef>>, ts: seq<TypeDefinition>, pairs: seq<MethodPair>,
                     want: seq<seq<MethodDef>>)
    requires |before| == |ts| && (|ts| > 0 ==> |pairs| > 0 && LookupsSucceed(pairs))
  {
    |want| == |ts| &&
    forall i {:trigger WovenType(before[i], ts[i], pairs)} :: 0 <= i < |ts| ==>
      want[i] == WovenType(before[i], ts[i], pairs)
  }

  /** For any types there is the list of what they weave to. */
  lemma WovenListsExist(before: seq<seq<MethodDef>>, ts: seq<TypeDefinition>, pairs: seq<MethodPair>)
    returns (want: seq<seq<MethodDef>>)
    requires |before| == |ts| && (|ts| > 0 ==> |pairs| > 0 && LookupsSucceed(pairs))
    ensures WeavesTo(before, ts, pairs, want)
  {
    want := seq(|ts|, i requires 0 <= i < |ts| => WovenType(before[i], ts[i], pairs));
  }

  /** A list of types that has the methods of `want` has what weaving gives it. */
  lemma WovenAsWanted(before: seq<seq<MethodDef>>, ts: seq<TypeDefinition>, pairs: seq<MethodPair>,
                      want: seq<seq<MethodDef>>)
    requires |before| == |ts| && (|ts| > 0 ==> |pairs| > 0 && LookupsSucceed(pairs))
    requires WeavesTo(before, ts, pairs, want)
    requires forall i :: 0 <= i < |ts| ==> ts[i].methods == want[i]
    ensures forall i :: 0 <= i < |ts| ==> ts[i].methods == WovenType(before[i], ts[i], pairs)
  {
  }

  /** Weaving is a matter of each type alone: a stretch of `want` is what the
      types of that stretch weave to as a list of their own. */
  lemma WeavesToSegment(before: seq<seq<MethodDef>>, ts: seq<TypeDefinition>, want: seq<seq<MethodDef>>,
                        sub: seq<seq<MethodDef>>, subTs: seq<TypeDefinition>, subWant: seq<seq<MethodDef>>,
                        lo: nat, pairs: seq<MethodPair>)
    requires |before| == |ts| == |want| && |sub| == |subTs| == |subWant| && lo + |subTs| <= |ts|
    requires |ts| > 0 ==> |pairs| > 0 && LookupsSucceed(pairs)
    requires forall k :: 0 <= k < |subTs| ==>
      sub[k] == before[lo + k] && subTs[k] == ts[lo + k] && subWant[k] == want[lo + k]
    requires WeavesTo(before, ts, pairs, want)
    ensures WeavesTo(sub, subTs, pairs, subWant)
  {
    forall k | 0 <= k < |subTs| ensures subWant[k] == WovenType(sub[k], subTs[k], pairs) {
      assert sub[k] == before[lo + k] && subTs[k] == ts[lo + k];
      assert want[lo + k] == WovenType(before[lo + k], ts[lo + k], pairs);
    }
  }

  // ---------------------------------------------------------------------------
  // The passes over types, modules and the assembly.

  /** Types whose method lists are those of a snapshot have that snapshot as MethodLists. */
  lemma MethodListsSame(ts: seq<TypeDefinition>, snap: seq<seq<MethodDef>>)
    requires |snap| == |ts| && forall i :: 0 <= i < |ts| ==> ts[i].methods == snap[i]
    ensures MethodLists(ts) == snap
  {
  }

  /** Weaves type `ti` of `types` from its list in `before`, to `want[ti]`;
      the others keep the method lists `mid` they have. */
  method WeaveTypeAt(types: seq<TypeDefinition>, ti: nat, pairs: seq<MethodPair>,
                     ghost before: seq<seq<MethodDef>>, ghost want: seq<seq<MethodDef>>, ghost mid: seq<seq<MethodDef>>)
    requires ti < |types| && Distinct(types) && PairsReady(pairs)
    requires |before| == |types| && TypeReady(before[ti], types[ti], pairs) && WeavesTo(before, types, pairs, want)
    requires mid == MethodLists(types) && mid[ti] == before[ti]
    modifies types[ti], (set p | p in pairs)`simpleFields, (set p | p in pairs)`arrayFields
    ensures types[ti].methods == want[ti]
    ensures forall i :: 0 <= i < |types| && i != ti ==> types[i].methods == mid[i]
  {
    var t := types[ti];
    assert want[ti] == WovenType(before[ti], types[ti], pairs);
    ghost var snap := MethodLists(types);
    assert snap == mid;
    DistinctOthers(types, ti);
    SkipsNoType(t.baseTypeName);
    GenerateForType(t, pairs);
  }

  /** Weaves the given types in order, each from its list in `before` to its list in `want`. */
  method WeaveTypes(types: seq<TypeDefinition>, pairs: seq<MethodPair>,
                    ghost before: seq<seq<MethodDef>>, ghost want: seq<seq<MethodDef>>)
    requires PairsReady(pairs) && Distinct(types)
    requires before == MethodLists(types) && AllReady(before, types, pairs) && WeavesTo(before, types, pairs, want)
    modifies types, (set p | p in pairs)`simpleFields, (set p | p in pairs)`arrayFields
    ensures forall i :: 0 <= i < |types| ==> types[i].methods == want[i]
  {
    for ti := 0 to |types|
      invariant forall i :: 0 <= i < ti ==> types[i].methods == want[i]
      invariant forall i :: ti <= i < |types| ==> types[i].methods == before[i]
    {
      // The base-type filter of the source, which never holds (SkipsNoType).
      if SkipsType(types[ti].baseTypeName) {
        continue;
      }
      WeaveTypeAt(types, ti, pairs, before, want, MethodLists(types));
    }
  }

  /** The work on one module: import every pair's templates into it, then
      weave each of its types in order, each from its list in `before` to its list in `want`. */
  method GenerateForModule(moduleDefinition: ModuleDefinition, pairs: seq<MethodPair>,
                           ghost before: seq<seq<MethodDef>>, ghost want: seq<seq<MethodDef>>)
    requires Distinct(pairs) && LookupsSucceed(pairs)
    requires forall j :: 0 <= j < |pairs| ==> InfosResolved(pairs[j])
    requires |moduleDefinition.types| > 0 ==> |pairs| > 0
    requires Distinct(moduleDefinition.types)
    requires before == MethodLists(moduleDefinition.types) && AllReady(before, moduleDefinition.types, pairs)
    requires WeavesTo(before, moduleDefinition.types, pairs, want)
    modifies moduleDefinition.types
    modifies (set p | p in pairs)`simpleMethodReference, (set p | p in pairs)`arrayMethodReference
    modifies (set p | p in pairs)`simpleFields, (set p | p in pairs)`arrayFields
    ensures forall j :: 0 <= j < |pairs| ==> ReferencesImported(pairs[j])
    ensures forall i :: 0 <= i < |moduleDefinition.types| ==> moduleDefinition.types[i].methods == want[i]
  {
    ImportReferences(pairs);
    MethodListsSame(moduleDefinition.types, before);
    if |moduleDefinition.types| > 0 {
      WeaveTypes(moduleDefinition.types, pairs, before, want);
    }
  }

  /** The work on one module whose types sit at position `lo` of the list of
      all types: they are woven from `before` to `want`, the others keep the
      method lists `mid` they have. */
  method GenerateForSegment(ghost all: seq<TypeDefinition>, moduleDefinition: ModuleDefinition, ghost lo: nat,
                            pairs: seq<MethodPair>, ghost before: seq<seq<MethodDef>>, ghost want: seq<seq<MethodDef>>,
                            ghost mid: seq<seq<MethodDef>>)
    requires lo + |moduleDefinition.types| <= |all| && Distinct(all)
    requires forall k :: 0 <= k < |moduleDefinition.types| ==> all[lo + k] == moduleDefinition.types[k]
    requires mid == MethodLists(all)
    requires Distinct(pairs) && LookupsSucceed(pairs)
    requires forall j :: 0 <= j < |pairs| ==> InfosResolved(pairs[j])
    requires |all| > 0 ==> |pairs| > 0
    requires |before| == |all| && AllReady(before, all, pairs) && WeavesTo(before, all, pairs, want)
    requires forall i :: lo <= i < lo + |moduleDefinition.types| ==> mid[i] == before[i]
    modifies moduleDefinition.types
    modifies (set p | p in pairs)`simpleMethodReference, (set p | p in pairs)`arrayMethodReference
    modifies (set p | p in pairs)`simpleFields, (set p | p in pairs)`arrayFields
    ensures forall j :: 0 <= j < |pairs| ==> ReferencesImported(pairs[j])
    ensures forall i :: 0 <= i < |all| && !(lo <= i < lo + |moduleDefinition.types|) ==> all[i].methods == mid[i]
    ensures forall i :: lo <= i < lo + |moduleDefinition.types| ==> all[i].methods == want[i]
    ensures forall j :: 0 <= j < |pairs| ==>
      pairs[j].simpleMethodInfo == old(pairs[j].simpleMethodInfo) && pairs[j].arrayMethodInfo == old(pairs[j].arrayMethodInfo)
  {
    var types := moduleDefinition.types;
    SegmentApart(all, types, lo);
    ghost var snap := MethodLists(all);
    assert snap == mid;
    ghost var sub := MethodLists(types);
    assert forall k :: 0 <= k < |types| ==> sub[k] == before[lo + k];
    AllReadySegment(before, all, sub, types, lo, pairs);
    ghost var subWant := want[lo..lo + |types|];
    WeavesToSegment(before, all, want, sub, types, subWant, lo, pairs);
    label Before:
    GenerateForModule(moduleDefinition, pairs, sub, subWant);
    forall i | 0 <= i < |all| && !(lo <= i < lo + |types|) ensures all[i].methods == mid[i] {
      assert all[i] !in types;
      assert all[i].methods == old@Before(all[i].methods) == snap[i];
    }
    forall i | lo <= i < lo + |types| ensures all[i].methods == want[i] {
      assert types[i - lo] == all[i] && subWant[i - lo] == want[i];
    }
  }

  /** One step of the pass over the modules: the types of the modules before
      `mi`, up to position `lo` of the list of all types, are already woven
      from their method lists `before`, the others still have them; after the
      step, the types of module `mi` are woven too, up to position `hi`. */
  method GenerateForModuleStep(mods: seq<ModuleDefinition>, mi: nat, pairs: seq<MethodPair>,
                               ghost before: seq<seq<MethodDef>>, ghost want: seq<seq<MethodDef>>, ghost lo: nat)
    returns (ghost hi: nat)
    requires mi < |mods| && Distinct(AllTypes(mods)) && lo == |AllTypes(mods[..mi])| <= |AllTypes(mods)|
    requires Distinct(pairs) && LookupsSucceed(pairs)
    requires forall j :: 0 <= j < |pairs| ==> InfosResolved(pairs[j])
    requires |AllTypes(mods)| > 0 ==> |pairs| > 0
    requires |before| == |AllTypes(mods)| && AllReady(before, AllTypes(mods), pairs)
    requires WeavesTo(before, AllTypes(mods), pairs, want)
    requires forall i :: 0 <= i < lo ==> AllTypes(mods)[i].methods == want[i]
    requires forall i :: lo <= i < |AllTypes(mods)| ==> AllTypes(mods)[i].methods == before[i]
    modifies AllTypes(mods)
    modifies (set p | p in pairs)`simpleMethodReference, (set p | p in pairs)`arrayMethodReference
    modifies (set p | p in pairs)`simpleFields, (set p | p in pairs)`arrayFields
    ensures forall j :: 0 <= j < |pairs| ==> ReferencesImported(pairs[j]) && InfosResolved(pairs[j])
    ensures hi == |AllTypes(mods[..mi + 1])| <= |AllTypes(mods)|
    ensures forall i :: 0 <= i < hi ==> AllTypes(mods)[i].methods == want[i]
    ensures forall i :: hi <= i < |AllTypes(mods)| ==> AllTypes(mods)[i].methods == before[i]
  {
    var lo', hi' := AllTypesModule(mods, mi);
    ModuleTypesInAll(mods, mi);
    hi := hi';
    ghost var all := AllTypes(mods);
    ghost var mid := MethodLists(all);
    assert forall i :: 0 <= i < lo ==> mid[i] == want[i];
    assert forall i :: lo <= i < |all| ==> mid[i] == before[i];
    label Pre:
    GenerateForSegment(all, mods[mi], lo, pairs, before, want, mid);
    forall j | 0 <= j < |pairs| ensures InfosResolved(pairs[j]) {
      assert old@Pre(InfosResolved(pairs[j]));
    }
  }

  /** Resolves every pair's two templates by reflection on its capability type. */
  method ResolveInfos(pairs: seq<MethodPair>)
    modifies (set p | p in pairs)`simpleMethodInfo, (set p | p in pairs)`arrayMethodInfo
    ensures forall j :: 0 <= j < |pairs| ==> InfosResolved(pairs[j])
  {
    for j := 0 to |pairs|
      invariant forall i :: 0 <= i < j ==> InfosResolved(pairs[i])
    {
      pairs[j].simpleMethodInfo := SimpleLookup(pairs[j]);
      pairs[j].arrayMethodInfo := ArrayLookup(pairs[j]);
    }
  }

  /** The pass over the modules: for each, import the templates and weave its
      types, each from its method list in `before` to its list in `want`. */
  method WeaveModules(mods: seq<ModuleDefinition>, pairs: seq<MethodPair>,
                      ghost before: seq<seq<MethodDef>>, ghost want: seq<seq<MethodDef>>)
    requires Distinct(pairs) && Distinct(AllTypes(mods))
    requires |mods| > 0 ==> LookupsSucceed(pairs)
    requires |AllTypes(mods)| > 0 ==> |pairs| > 0 && LookupsSucceed(pairs)
    requires forall j :: 0 <= j < |pairs| ==> InfosResolved(pairs[j])
    requires before == MethodLists(AllTypes(mods)) && AllReady(before, AllTypes(mods), pairs)
    requires WeavesTo(before, AllTypes(mods), pairs, want)
    modifies AllTypes(mods)
    modifies (set p | p in pairs)`simpleMethodReference, (set p | p in pairs)`arrayMethodReference
    modifies (set p | p in pairs)`simpleFields, (set p | p in pairs)`arrayFields
    ensures forall j :: 0 <= j < |pairs| ==> InfosResolved(pairs[j])
    ensures |mods| > 0 ==> forall j :: 0 <= j < |pairs| ==> ReferencesImported(pairs[j])
    ensures forall i :: 0 <= i < |AllTypes(mods)| ==> AllTypes(mods)[i].methods == want[i]
  {
    ghost var all := AllTypes(mods);
    ghost var lo := 0;
    assert mods[..0] == [];
    for mi := 0 to |mods|
      invariant lo == |AllTypes(mods[..mi])| <= |all|
      invariant forall i :: 0 <= i < lo ==> all[i].methods == want[i]
      invariant forall i :: lo <= i < |all| ==> all[i].methods == before[i]
      invariant mi > 0 ==> forall j :: 0 <= j < |pairs| ==> ReferencesImported(pairs[j])
      invariant forall j :: 0 <= j < |pairs| ==> InfosResolved(pairs[j])
    {
      lo := GenerateForModuleStep(mods, mi, pairs, before, want, lo);
    }
    AllTypesWhole(mods);
  }

  /** The multi-rule pass over an assembly: resolve every pair's templates,
      then for every module import them and weave every type. A missing
      template makes the import throw, and the last-pair lookups throw on an
      empty pair list once a type is reached; hence the requirements. */
  method GenerateCodeForAttributeName(assembly: AssemblyDefinition, pairs: seq<MethodPair>)
    requires Distinct(pairs) && Distinct(AllTypes(assembly.modules))
    requires |assembly.modules| > 0 ==> LookupsSucceed(pairs)
    requires |AllTypes(assembly.modules)| > 0 ==> |pairs| > 0 && LookupsSucceed(pairs)
    requires AllReady(MethodLists(AllTypes(assembly.modules)), AllTypes(assembly.modules), pairs)
    modifies AllTypes(assembly.modules)
    modifies (set p | p in pairs)`simpleMethodInfo, (set p | p in pairs)`arrayMethodInfo
    modifies (set p | p in pairs)`simpleMethodReference, (set p | p in pairs)`arrayMethodReference
    modifies (set p | p in pairs)`simpleFields, (set p | p in pairs)`arrayFields
    ensures forall j :: 0 <= j < |pairs| ==> InfosResolved(pairs[j])
    ensures |assembly.modules| > 0 ==> forall j :: 0 <= j < |pairs| ==> ReferencesImported(pairs[j])
    ensures forall i :: 0 <= i < |AllTypes(assembly.modules)| ==>
      var t := AllTypes(assembly.modules)[i];
      t.methods == WovenType(old(t.methods), t, pairs)
  {
    ghost var all := AllTypes(assembly.modules);
    ghost var before := MethodLists(all);
    ghost var want := WovenListsExist(before, all, pairs);
    ResolveInfos(pairs);
    MethodListsSame(all, before);
    WeaveModules(assembly.modules, pairs, before, want);
    WovenAsWanted(before, all, pairs, want);
  }
}
