/** The single-rule weaver: in every type that derives from MonoBehaviour, each
    field marked AwakeGet is filled at the start of Awake by a call to
    GetComponent<T> (scalar fields) or GetComponents<T> (array fields). */
module IlAwakePostProcessor {
  import opened IlModel
  import opened CollectionHelpers

  const UnityPrefix: string := "Unity"
  const AwakeGetName: string := "AwakeGet"
  const AwakeName: string := "Awake"
  const GetComponentName: string := "GetComponent"
  const GetComponentsName: string := "GetComponents"

  /** Assemblies whose name starts with "Unity" are not post-processed. */
  predicate WillProcess(assemblyName: string)
  {
    !(|UnityPrefix| <= |assemblyName| && assemblyName[..|UnityPrefix|] == UnityPrefix)
  }

  lemma WillProcessIffNotUnity(assemblyName: string)
    ensures !WillProcess(assemblyName) <==> exists rest :: assemblyName == UnityPrefix + rest
  {
    if !WillProcess(assemblyName) {
      var rest := assemblyName[|UnityPrefix|..];
      assert assemblyName == UnityPrefix + rest;
    }
    if exists rest :: assemblyName == UnityPrefix + rest {
      var rest :| assemblyName == UnityPrefix + rest;
      assert assemblyName[..|UnityPrefix|] == UnityPrefix;
    }
  }

  predicate IsMonoBehaviour(baseTypeName: Option<string>)
  {
    baseTypeName.Some? && baseTypeName.value == MonoBehaviourName
  }

  predicate HasAwakeGet(f: Field)
  {
    AwakeGetName in f.attributes
  }

  /** The AwakeGet fields, in declaration order, whose type is (wantArray) or
      is not (!wantArray) an array. */
  function AwakeGetFields(fields: seq<Field>, wantArray: bool): seq<Field>
  {
    if fields == [] then []
    else
      var f := fields[|fields| - 1];
      AwakeGetFields(fields[..|fields| - 1], wantArray)
        + (if HasAwakeGet(f) && IsArray(f.fieldType) == wantArray then [f] else [])
  }

  /** The AwakeGet fields of either kind, in declaration order. */
  function MarkedFields(fields: seq<Field>): seq<Field>
  {
    if fields == [] then []
    else
      var f := fields[|fields| - 1];
      MarkedFields(fields[..|fields| - 1]) + (if HasAwakeGet(f) then [f] else [])
  }

  lemma {:induction false} AwakeGetFieldsMember(fields: seq<Field>, wantArray: bool, f: Field)
    ensures f in AwakeGetFields(fields, wantArray)
        <==> f in fields && HasAwakeGet(f) && IsArray(f.fieldType) == wantArray
  {
    if fields != [] {
      var init := fields[..|fields| - 1];
      AwakeGetFieldsMember(init, wantArray, f);
      assert fields == init + [fields[|fields| - 1]];
    }
  }

  /** Every marked field lands in exactly one of the two buckets and only once,
      however many AwakeGet attributes it carries; unmarked fields in neither. */
  lemma {:induction false} AwakeGetPartition(fields: seq<Field>)
    ensures multiset(AwakeGetFields(fields, false)) + multiset(AwakeGetFields(fields, true))
         == multiset(MarkedFields(fields))
  {
    if fields != [] {
      var init := fields[..|fields| - 1];
      var f := fields[|fields| - 1];
      AwakeGetPartition(init);
      var s, a, m := AwakeGetFields(init, false), AwakeGetFields(init, true), MarkedFields(init);
      assert multiset(s) + multiset(a) == multiset(m);
      var fs := if HasAwakeGet(f) && !IsArray(f.fieldType) then [f] else [];
      var fa := if HasAwakeGet(f) && IsArray(f.fieldType) then [f] else [];
      var fm := if HasAwakeGet(f) then [f] else [];
      assert AwakeGetFields(fields, false) == s + fs;
      assert AwakeGetFields(fields, true) == a + fa;
      assert MarkedFields(fields) == m + fm;
      assert multiset(fs) + multiset(fa) == multiset(fm);
    }
  }

  /** One field's injected block: receiver twice, the instantiated call, the store. */
  function AwakeFieldBlock(template: Template, f: Field, arg: TypeRef): seq<Instr>
  {
    [Ldarg0, Ldarg0, Call(template, arg), Stfld(f)]
  }

  /** The blocks for `fs`, in order. */
  function AwakeBlocks(template: Template, fs: seq<Field>, fromArray: bool): seq<Instr>
  {
    if fs == [] then []
    else
      var f := fs[|fs| - 1];
      AwakeBlocks(template, fs[..|fs| - 1], fromArray) + AwakeFieldBlock(template, f, GenericArg(f, fromArray))
  }

  lemma {:induction false} AwakeBlocksLayout(template: Template, fs: seq<Field>, fromArray: bool)
    ensures |AwakeBlocks(template, fs, fromArray)| == 4 * |fs|
    ensures forall i :: 0 <= i < |fs| ==>
      AwakeBlocks(template, fs, fromArray)[4 * i .. 4 * i + 4]
        == [Ldarg0, Ldarg0, Call(template, GenericArg(fs[i], fromArray)), Stfld(fs[i])]
  {
    if fs != [] {
      var init := fs[..|fs| - 1];
      AwakeBlocksLayout(template, init, fromArray);
      var b := AwakeBlocks(template, fs, fromArray);
      var bi := AwakeBlocks(template, init, fromArray);
      assert b == bi + AwakeFieldBlock(template, fs[|fs| - 1], GenericArg(fs[|fs| - 1], fromArray));
      forall i | 0 <= i < |fs|
        ensures b[4 * i .. 4 * i + 4] == [Ldarg0, Ldarg0, Call(template, GenericArg(fs[i], fromArray)), Stfld(fs[i])]
      {
        if i < |init| {
          assert b[4 * i .. 4 * i + 4] == bi[4 * i .. 4 * i + 4];
        } else {
          assert b[4 * i .. 4 * i + 4] == b[|bi|..];
        }
      }
    }
  }

  lemma {:induction false} AwakeBlocksLength(template: Template, fs: seq<Field>, fromArray: bool)
    ensures |AwakeBlocks(template, fs, fromArray)| == 4 * |fs|
  {
    if fs != [] {
      AwakeBlocksLength(template, fs[..|fs| - 1], fromArray);
    }
  }

  /** Everything injected into Awake: scalar fields first, then array fields. */
  function AwakeInjection(getComponent: Template, getComponents: Template,
                          simple: seq<Field>, arrays: seq<Field>): seq<Instr>
  {
    AwakeBlocks(getComponent, simple, false) + AwakeBlocks(getComponents, arrays, true)
  }

  /** The index of the Awake method a woven type ends up with: the last one
      declared, or the one appended at the end. */
  function AwakeIndex(ms: seq<MethodDef>): nat
  {
    match LastNamed(ms, AwakeName)
    case Some(k) => k
    case None => |ms|
  }

  /** The method list with Awake present: unchanged, or with a fresh Awake appended. */
  function WithAwake(ms: seq<MethodDef>): seq<MethodDef>
  {
    if LastNamed(ms, AwakeName).Some? then ms else ms + [NewMethod(AwakeName)]
  }

  /** The method list of a type after the pass. */
  function WeaveAwake(baseTypeName: Option<string>, fields: seq<Field>, ms: seq<MethodDef>,
                      getComponent: Template, getComponents: Template): seq<MethodDef>
  {
    var simple := AwakeGetFields(fields, false);
    var arrays := AwakeGetFields(fields, true);
    if !IsMonoBehaviour(baseTypeName) || (simple == [] && arrays == []) then ms
    else
      assert AwakeIndex(ms) < |WithAwake(ms)|;
      PrependBody(WithAwake(ms), AwakeIndex(ms), AwakeInjection(getComponent, getComponents, simple, arrays))
  }

  /** What the pass needs of a type it weaves: the Awake method it picks, if
      declared, has a first instruction. */
  predicate AwakeReady(baseTypeName: Option<string>, fields: seq<Field>, ms: seq<MethodDef>)
  {
    IsMonoBehaviour(baseTypeName) && MarkedFields(fields) != [] ==>
      match LastNamed(ms, AwakeName)
      case None => true
      case Some(k) => |ms[k].body| > 0
  }

  lemma {:induction false} MarkedFieldsEmpty(fields: seq<Field>)
    ensures MarkedFields(fields) == [] <==> AwakeGetFields(fields, false) == [] && AwakeGetFields(fields, true) == []
  {
    AwakeGetPartition(fields);
    assert multiset(MarkedFields(fields)) == multiset{} <==> MarkedFields(fields) == [];
    assert multiset(AwakeGetFields(fields, false)) == multiset{} <==> AwakeGetFields(fields, false) == [];
  }

  /** A type is left exactly as it was if and only if it does not derive from
      MonoBehaviour or has no AwakeGet field. */
  lemma WeaveAwakeUnchanged(baseTypeName: Option<string>, fields: seq<Field>, ms: seq<MethodDef>,
                            getComponent: Template, getComponents: Template)
    ensures WeaveAwake(baseTypeName, fields, ms, getComponent, getComponents) == ms
        <==> !IsMonoBehaviour(baseTypeName) || MarkedFields(fields) == []
  {
    MarkedFieldsEmpty(fields);
    var simple := AwakeGetFields(fields, false);
    var arrays := AwakeGetFields(fields, true);
    if IsMonoBehaviour(baseTypeName) && MarkedFields(fields) != [] {
      var r := WeaveAwake(baseTypeName, fields, ms, getComponent, getComponents);
      var inj := AwakeInjection(getComponent, getComponents, simple, arrays);
      AwakeBlocksLayout(getComponent, simple, false);
      AwakeBlocksLayout(getComponents, arrays, true);
      assert |inj| > 0;
      var k := AwakeIndex(ms);
      if LastNamed(ms, AwakeName).Some? {
        assert |r[k].body| == |inj| + |ms[k].body|;
        assert r != ms;
      } else {
        assert |r| == |ms| + 1;
      }
    }
  }

  /** For a woven type: which method is Awake, what its body is, how much it
      grew, that the old body is its suffix, and that no other method changed. */
  lemma WeaveAwakeTarget(baseTypeName: Option<string>, fields: seq<Field>, ms: seq<MethodDef>,
                         getComponent: Template, getComponents: Template)
    requires IsMonoBehaviour(baseTypeName) && MarkedFields(fields) != []
    ensures var r := WeaveAwake(baseTypeName, fields, ms, getComponent, getComponents);
            var k := AwakeIndex(ms);
            var simple := AwakeGetFields(fields, false);
            var arrays := AwakeGetFields(fields, true);
            var old_ := if k < |ms| then ms[k].body else [Ret];
            k < |r| && LastNamed(r, AwakeName) == Some(k) &&
            r[k].body == AwakeInjection(getComponent, getComponents, simple, arrays) + old_ &&
            |r[k].body| == |old_| + 4 * (|simple| + |arrays|) &&
            r[k].body[|r[k].body| - |old_|..] == old_ &&
            (forall i :: 0 <= i < |ms| && i != k ==> r[i] == ms[i]) &&
            (k < |ms| ==> |r| == |ms| && r[k] == ms[k].(body := r[k].body)) &&
            (k == |ms| ==> |r| == |ms| + 1 && r[k] == NewMethod(AwakeName).(body := r[k].body))
  {
    MarkedFieldsEmpty(fields);
    var simple := AwakeGetFields(fields, false);
    var arrays := AwakeGetFields(fields, true);
    AwakeBlocksLayout(getComponent, simple, false);
    AwakeBlocksLayout(getComponents, arrays, true);
    var r := WeaveAwake(baseTypeName, fields, ms, getComponent, getComponents);
    var k := AwakeIndex(ms);
    var w := WithAwake(ms);
    assert r == PrependBody(w, k, AwakeInjection(getComponent, getComponents, simple, arrays));
    LastNamedAfterPrepend(w, k, AwakeInjection(getComponent, getComponents, simple, arrays));
    if LastNamed(ms, AwakeName).None? {
      LastNamedAppend(ms);
    }
  }

  lemma LastNamedAppend(ms: seq<MethodDef>)
    requires LastNamed(ms, AwakeName).None?
    ensures LastNamed(ms + [NewMethod(AwakeName)], AwakeName) == Some(|ms|)
  {
  }

  lemma LastNamedAfterPrepend(w: seq<MethodDef>, k: nat, inj: seq<Instr>)
    requires LastNamed(w, AwakeName) == Some(k)
    ensures LastNamed(PrependBody(w, k, inj), AwakeName) == Some(k)
  {
    var r := PrependBody(w, k, inj);
    var l := LastNamed(r, AwakeName);
    assert r[k].name == AwakeName;
    assert forall i :: k < i < |r| ==> r[i].name == w[i].name;
    assert l.Some?;
    assert l.value == k;
  }

  lemma WithAwakeIsLast(ms: seq<MethodDef>)
    ensures LastNamed(WithAwake(ms), AwakeName) == Some(AwakeIndex(ms))
  {
    if LastNamed(ms, AwakeName).None? {
      LastNamedAppend(ms);
    }
  }

  /** The injected prefix of Awake, block by block: the scalar field i sits at
      offset 4i with GetComponent<T> for its own type T, the array field i at
      offset 4 * (number of scalar fields) + 4i with GetComponents<E> for the
      resolved element type E, which is never the array type itself. */
  lemma AwakeInjectionLayout(getComponent: Template, getComponents: Template,
                             simple: seq<Field>, arrays: seq<Field>)
    requires forall f :: f in arrays ==> IsArray(f.fieldType)
    ensures var inj := AwakeInjection(getComponent, getComponents, simple, arrays);
      |inj| == 4 * (|simple| + |arrays|) &&
      (forall i :: 0 <= i < |simple| ==>
        inj[4 * i .. 4 * i + 4] == [Ldarg0, Ldarg0, Call(getComponent, simple[i].fieldType), Stfld(simple[i])]) &&
      (forall i :: 0 <= i < |arrays| ==>
        var arg := Resolve(arrays[i].fieldType);
        inj[4 * |simple| + 4 * i .. 4 * |simple| + 4 * i + 4]
          == [Ldarg0, Ldarg0, Call(getComponents, arg), Stfld(arrays[i])] &&
        !IsArray(arg) && arg != arrays[i].fieldType)
  {
    InjectionScalarLayout(getComponent, getComponents, simple, arrays);
    InjectionArrayLayout(getComponent, getComponents, simple, arrays);
  }

  lemma InjectionScalarLayout(getComponent: Template, getComponents: Template,
                              simple: seq<Field>, arrays: seq<Field>)
    ensures var inj := AwakeInjection(getComponent, getComponents, simple, arrays);
      |inj| == 4 * (|simple| + |arrays|) &&
      forall i :: 0 <= i < |simple| ==>
        inj[4 * i .. 4 * i + 4] == [Ldarg0, Ldarg0, Call(getComponent, simple[i].fieldType), Stfld(simple[i])]
  {
    var s := AwakeBlocks(getComponent, simple, false);
    AwakeBlocksLayout(getComponent, simple, false);
    AwakeBlocksLayout(getComponents, arrays, true);
    var inj := s + AwakeBlocks(getComponents, arrays, true);
    forall i | 0 <= i < |simple|
      ensures inj[4 * i .. 4 * i + 4] == s[4 * i .. 4 * i + 4]
    {
    }
  }

  lemma InjectionArrayLayout(getComponent: Template, getComponents: Template,
                             simple: seq<Field>, arrays: seq<Field>)
    requires forall f :: f in arrays ==> IsArray(f.fieldType)
    ensures var inj := AwakeInjection(getComponent, getComponents, simple, arrays);
      |inj| == 4 * (|simple| + |arrays|) &&
      forall i :: 0 <= i < |arrays| ==>
        var arg := Resolve(arrays[i].fieldType);
        inj[4 * |simple| + 4 * i .. 4 * |simple| + 4 * i + 4]
          == [Ldarg0, Ldarg0, Call(getComponents, arg), Stfld(arrays[i])] &&
        !IsArray(arg) && arg != arrays[i].fieldType
  {
    var s := AwakeBlocks(getComponent, simple, false);
    var a := AwakeBlocks(getComponents, arrays, true);
    AwakeBlocksLength(getComponent, simple, false);
    AwakeBlocksLayout(getComponents, arrays, true);
    assert AwakeInjection(getComponent, getComponents, simple, arrays) == s + a;
    forall i | 0 <= i < |arrays|
      ensures var arg := Resolve(arrays[i].fieldType);
        AwakeInjection(getComponent, getComponents, simple, arrays)[4 * |simple| + 4 * i .. 4 * |simple| + 4 * i + 4]
          == [Ldarg0, Ldarg0, Call(getComponents, arg), Stfld(arrays[i])] &&
        !IsArray(arg) && arg != arrays[i].fieldType
    {
      assert arrays[i] in arrays;
      SliceRight(s, a, 4 * i, 4 * i + 4);
      assert a[4 * i .. 4 * i + 4] == [Ldarg0, Ldarg0, Call(getComponents, GenericArg(arrays[i], true)), Stfld(arrays[i])];
    }
  }

  /** Example: a MonoBehaviour with one field `a: Foo` marked AwakeGet and no
      methods gets a new Awake whose whole body is the block for `a` and a return. */
  lemma ScenarioSingleField(getComponent: Template, getComponents: Template)
    ensures var a := Field("a", Named("Foo"), [AwakeGetName]);
      WeaveAwake(Some(MonoBehaviourName), [a], [], getComponent, getComponents)
        == [NewMethod(AwakeName).(body := [Ldarg0, Ldarg0, Call(getComponent, Named("Foo")), Stfld(a), Ret])]
  {
    var a := Field("a", Named("Foo"), [AwakeGetName]);
    var inj := [Ldarg0, Ldarg0, Call(getComponent, Named("Foo")), Stfld(a)];
    ScenarioBuckets(a);
    ScenarioInjection(getComponent, getComponents, a);
    assert WithAwake([]) == [NewMethod(AwakeName)] && AwakeIndex([]) == 0;
    assert inj + NewMethod(AwakeName).body == [Ldarg0, Ldarg0, Call(getComponent, Named("Foo")), Stfld(a), Ret];
  }

  /** The single field of the example goes to the scalar bucket only. */
  lemma ScenarioBuckets(a: Field)
    requires a == Field("a", Named("Foo"), [AwakeGetName])
    ensures AwakeGetFields([a], false) == [a] && AwakeGetFields([a], true) == []
  {
    assert [a][..0] == [];
    assert a.attributes[0] == AwakeGetName;
  }

  /** The injection of the example is the one block for its field. */
  lemma ScenarioInjection(getComponent: Template, getComponents: Template, a: Field)
    ensures AwakeInjection(getComponent, getComponents, [a], [])
         == [Ldarg0, Ldarg0, Call(getComponent, a.fieldType), Stfld(a)]
  {
    assert [a][..0] == [];
    assert AwakeBlocks(getComponent, [a], false)
        == AwakeBlocks(getComponent, [], false) + AwakeFieldBlock(getComponent, a, GenericArg(a, false));
  }

  // ---------------------------------------------------------------------------
  // The pass itself.

  /** Adds the AwakeGet fields to the (cleared) buckets: for each field, its
      attributes are scanned up to the first AwakeGet, which sends the field to
      one bucket by its type. */
  method CollectAwakeGetFields(fields: seq<Field>, simple0: seq<Field>, array0: seq<Field>)
    returns (simple: seq<Field>, arrays: seq<Field>)
    ensures simple == simple0 + AwakeGetFields(fields, false)
    ensures arrays == array0 + AwakeGetFields(fields, true)
  {
    simple, arrays := simple0, array0;
    for i := 0 to |fields|
      invariant simple == simple0 + AwakeGetFields(fields[..i], false)
      invariant arrays == array0 + AwakeGetFields(fields[..i], true)
    {
      var f := fields[i];
      var a := 0;
      while a < |f.attributes| && f.attributes[a] != AwakeGetName
        invariant 0 <= a <= |f.attributes|
        invariant forall j :: 0 <= j < a ==> f.attributes[j] != AwakeGetName
      {
        a := a + 1;
      }
      assert a < |f.attributes| <==> HasAwakeGet(f);
      if a < |f.attributes| {
        if IsArray(f.fieldType) {
          arrays := arrays + [f];
        } else {
          simple := simple + [f];
        }
      }
      assert fields[..i + 1][..i] == fields[..i];
    }
    assert fields[..|fields|] == fields;
  }

  /** Scans the whole method list, keeping the last method called Awake. */
  method FindAwake(ms: seq<MethodDef>) returns (k: Option<nat>)
    ensures k == LastNamed(ms, AwakeName)
  {
    k := None;
    for i := 0 to |ms|
      invariant k == LastNamed(ms[..i], AwakeName)
    {
      assert ms[..i + 1][..i] == ms[..i];
      if ms[i].name == AwakeName {
        k := Some(i);
      }
    }
    assert ms[..|ms|] == ms;
  }

  /** The blocks for one more field of a bucket: the last block comes last. */
  lemma AwakeBlocksStep(template: Template, fs: seq<Field>, i: nat, fromArray: bool)
    requires i < |fs|
    ensures AwakeBlocks(template, fs[..i + 1], fromArray)
         == AwakeBlocks(template, fs[..i], fromArray) + AwakeFieldBlock(template, fs[i], GenericArg(fs[i], fromArray))
  {
    assert fs[..i + 1][..i] == fs[..i];
  }

  /** The four instructions for field `f`, inserted one at a time in front of
      the captured first original instruction, which sits at `first`. */
  method InsertAwakeFieldBlock(body: seq<Instr>, first: nat, template: Template, f: Field, fromArray: bool,
                               ghost prefix: seq<Instr>, ghost orig: seq<Instr>)
    returns (body': seq<Instr>, first': nat)
    requires body == prefix + orig && first == |prefix|
    ensures body' == prefix + AwakeFieldBlock(template, f, GenericArg(f, fromArray)) + orig
    ensures first' == first + 4
  {
    // for the array bucket, the resolved element type imported into the module as it is
    var arg := if fromArray then Resolve(f.fieldType) else f.fieldType;
    body' := InsertAt(body, first, Ldarg0);
    body' := InsertAt(body', first + 1, Ldarg0);
    body' := InsertAt(body', first + 2, Call(template, arg));
    body' := InsertAt(body', first + 3, Stfld(f));
    first' := first + 4;
    InsertFourBeforeFirst(prefix, orig, Ldarg0, Ldarg0, Call(template, arg), Stfld(f));
  }

  /** One of the two insertion loops: for each field of a bucket, its block
      goes in front of the captured first original instruction. */
  method InsertAwakeBlocks(body: seq<Instr>, first: nat, template: Template, fs: seq<Field>, fromArray: bool,
                           ghost done: seq<Instr>, ghost orig: seq<Instr>)
    returns (body': seq<Instr>, first': nat)
    requires body == done + orig && first == |done|
    ensures body' == done + AwakeBlocks(template, fs, fromArray) + orig
    ensures first' == |done + AwakeBlocks(template, fs, fromArray)|
  {
    body', first' := body, first;
    for i := 0 to |fs|
      invariant body' == done + AwakeBlocks(template, fs[..i], fromArray) + orig
      invariant first' == |done + AwakeBlocks(template, fs[..i], fromArray)|
    {
      body', first' := InsertAwakeFieldBlock(body', first', template, fs[i], fromArray,
                                             done + AwakeBlocks(template, fs[..i], fromArray), orig);
      AwakeBlocksStep(template, fs, i, fromArray);
    }
    assert fs[..|fs|] == fs;
  }

  /** Inserts the blocks for the scalar bucket, then for the array bucket, in
      front of the first original instruction of method `k`. */
  method InjectAwake(t: TypeDefinition, k: nat, getComponent: Template, getComponents: Template,
                     simple: seq<Field>, arrays: seq<Field>)
    requires k < |t.methods| && |t.methods[k].body| > 0
    modifies t
    ensures t.methods == PrependBody(old(t.methods), k, AwakeInjection(getComponent, getComponents, simple, arrays))
  {
    var body := t.methods[k].body;
    ghost var orig := body;
    ghost var scalars := AwakeBlocks(getComponent, simple, false);
    var first: nat := 0;
    assert body == [] + orig;
    body, first := InsertAwakeBlocks(body, first, getComponent, simple, false, [], orig);
    assert [] + scalars == scalars;
    body, first := InsertAwakeBlocks(body, first, getComponents, arrays, true, scalars, orig);
    assert body == AwakeInjection(getComponent, getComponents, simple, arrays) + orig;
    t.methods := t.methods[k := t.methods[k].(body := body)];
  }

  /** Weaves one MonoBehaviour type: clear and fill the buckets, then, if any
      field is marked, locate or create Awake and inject the blocks. */
  method WeaveType(t: TypeDefinition, getComponent: Template, getComponents: Template)
    requires IsMonoBehaviour(t.baseTypeName) && AwakeReady(t.baseTypeName, t.fields, t.methods)
    modifies t
    ensures t.methods == WeaveAwake(t.baseTypeName, t.fields, old(t.methods), getComponent, getComponents)
  {
    var allSimpleFields, allArrayFields := CollectAwakeGetFields(t.fields, [], []);
    assert allSimpleFields == AwakeGetFields(t.fields, false) && allArrayFields == AwakeGetFields(t.fields, true);
    if |allSimpleFields| > 0 || |allArrayFields| > 0 {
      MarkedFieldsEmpty(t.fields);
      ghost var ms := t.methods;
      var found := FindAwake(t.methods);
      var k: nat;
      if found.None? {
        t.methods := t.methods + [NewMethod(AwakeName)];
        k := |t.methods| - 1;
      } else {
        k := found.value;
      }
      assert t.methods == WithAwake(ms) && k == AwakeIndex(ms);
      InjectAwake(t, k, getComponent, getComponents, allSimpleFields, allArrayFields);
      assert t.methods == PrependBody(WithAwake(ms), AwakeIndex(ms),
        AwakeInjection(getComponent, getComponents, AwakeGetFields(t.fields, false), AwakeGetFields(t.fields, true)));
    }
  }

  /** The pass over the types of one module. */
  method PostProcessModule(moduleDefinition: ModuleDefinition, getComponentRef: Template, getComponentArrayRef: Template)
    requires Distinct(moduleDefinition.types)
    requires forall t :: t in moduleDefinition.types ==> AwakeReady(t.baseTypeName, t.fields, t.methods)
    modifies moduleDefinition.types
    ensures forall i :: 0 <= i < |moduleDefinition.types| ==>
      var t := moduleDefinition.types[i];
      t.methods == WeaveAwake(t.baseTypeName, t.fields, old(t.methods), getComponentRef, getComponentArrayRef)
  {
    var types := moduleDefinition.types;
    ghost var before := MethodLists(types);
    for ti := 0 to |types|
      invariant forall i :: 0 <= i < ti ==>
        types[i].methods == WeaveAwake(types[i].baseTypeName, types[i].fields, before[i], getComponentRef, getComponentArrayRef)
      invariant forall i :: ti <= i < |types| ==> types[i].methods == before[i]
    {
      var t := types[ti];
      DistinctOthers(types, ti);
      if !IsMonoBehaviour(t.baseTypeName) {
        continue;
      }
      assert t in types;
      WeaveType(t, getComponentRef, getComponentArrayRef);
    }
  }

  /** The pass over module `mi`, seen from the list of all types: the types of
      the module (positions lo to hi of the list) are woven, the others keep
      the method lists `mid` they had. */
  method PostProcessModuleAt(mods: seq<ModuleDefinition>, mi: nat, getComponentRef: Template,
                             getComponentArrayRef: Template, ghost mid: seq<seq<MethodDef>>)
    requires mi < |mods| && Distinct(AllTypes(mods)) && mid == MethodLists(AllTypes(mods))
    requires forall i :: |AllTypes(mods[..mi])| <= i < |AllTypes(mods[..mi + 1])| <= |AllTypes(mods)| ==>
      AwakeReady(AllTypes(mods)[i].baseTypeName, AllTypes(mods)[i].fields, mid[i])
    modifies mods[mi].types
    ensures |AllTypes(mods[..mi])| <= |AllTypes(mods[..mi + 1])| <= |AllTypes(mods)|
    ensures forall i :: 0 <= i < |AllTypes(mods)| && !(|AllTypes(mods[..mi])| <= i < |AllTypes(mods[..mi + 1])|) ==>
      AllTypes(mods)[i].methods == mid[i]
    ensures forall i :: |AllTypes(mods[..mi])| <= i < |AllTypes(mods[..mi + 1])| ==>
      AllTypes(mods)[i].methods == WeaveAwake(AllTypes(mods)[i].baseTypeName, AllTypes(mods)[i].fields, mid[i],
                                              getComponentRef, getComponentArrayRef)
  {
    var moduleDefinition := mods[mi];
    ghost var all := AllTypes(mods);
    ghost var lo, hi := AllTypesModule(mods, mi);
    SegmentApart(all, moduleDefinition.types, lo);
    forall t | t in moduleDefinition.types
      ensures AwakeReady(t.baseTypeName, t.fields, t.methods)
    {
      var k :| 0 <= k < |moduleDefinition.types| && moduleDefinition.types[k] == t;
      assert all[lo + k] == t;
    }
    ghost var snap := MethodLists(all);
    assert snap == mid;
    PostProcessModule(moduleDefinition, getComponentRef, getComponentArrayRef);
    forall i | 0 <= i < |all| && !(lo <= i < hi) ensures all[i].methods == mid[i] {
      assert all[i] !in moduleDefinition.types;
    }
    forall i | lo <= i < hi
      ensures all[i].methods == WeaveAwake(all[i].baseTypeName, all[i].fields, mid[i], getComponentRef, getComponentArrayRef)
    {
      assert all[i] == moduleDefinition.types[i - lo];
    }
  }

  /** `want` holds, for each type of `ts`, the method list the awake pass
      turns its list in `before` into. */
  predicate AwakeWeavesTo(before: seq<seq<MethodDef>>, ts: seq<TypeDefinition>, want: seq<seq<MethodDef>>,
                          getComponent: Template, getComponentArray: Template)
    requires |before| == |ts|
  {
    |want| == |ts| &&
    forall i {:trigger WeaveAwake(ts[i].baseTypeName, ts[i].fields, before[i], getComponent, getComponentArray)} ::
      0 <= i < |ts| ==> want[i] == WeaveAwake(ts[i].baseTypeName, ts[i].fields, before[i], getComponent, getComponentArray)
  }

  lemma AwakeListsExist(before: seq<seq<MethodDef>>, ts: seq<TypeDefinition>,
                        getComponent: Template, getComponentArray: Template)
      returns (want: seq<seq<MethodDef>>)
    requires |before| == |ts|
    ensures AwakeWeavesTo(before, ts, want, getComponent, getComponentArray)
  {
    want := seq(|ts|, i requires 0 <= i < |ts| =>
      WeaveAwake(ts[i].baseTypeName, ts[i].fields, before[i], getComponent, getComponentArray));
  }

  lemma AwakeAsWanted(before: seq<seq<MethodDef>>, ts: seq<TypeDefinition>, want: seq<seq<MethodDef>>,
                      getComponent: Template, getComponentArray: Template, after: seq<seq<MethodDef>>)
    requires |before| == |ts| == |after| && AwakeWeavesTo(before, ts, want, getComponent, getComponentArray)
    requires forall i :: 0 <= i < |ts| ==> after[i] == want[i]
    ensures forall i :: 0 <= i < |ts| ==>
      after[i] == WeaveAwake(ts[i].baseTypeName, ts[i].fields, before[i], getComponent, getComponentArray)
  {
  }

  /** One step of the pass over the modules: the types of the modules before
      `mi`, up to position `lo` of the list of all types, are already woven
      from their method lists `before` into `want`, the others still have
      them; after the step, the types of module `mi` are woven too, up to
      position `hi`. */
  method PostProcessModuleStep(mods: seq<ModuleDefinition>, mi: nat, getComponent: Template,
                               getComponentArray: Template, ghost before: seq<seq<MethodDef>>,
                               ghost want: seq<seq<MethodDef>>, ghost lo: nat)
    returns (ghost hi: nat)
    requires mi < |mods| && Distinct(AllTypes(mods)) && |before| == |AllTypes(mods)|
    requires lo == |AllTypes(mods[..mi])| <= |AllTypes(mods)|
    requires forall i :: 0 <= i < |AllTypes(mods)| ==>
      AwakeReady(AllTypes(mods)[i].baseTypeName, AllTypes(mods)[i].fields, before[i])
    requires AwakeWeavesTo(before, AllTypes(mods), want, getComponent, getComponentArray)
    requires forall i :: 0 <= i < lo ==> AllTypes(mods)[i].methods == want[i]
    requires forall i :: lo <= i < |AllTypes(mods)| ==> AllTypes(mods)[i].methods == before[i]
    modifies AllTypes(mods)
    ensures hi == |AllTypes(mods[..mi + 1])| <= |AllTypes(mods)|
    ensures forall i :: 0 <= i < hi ==> AllTypes(mods)[i].methods == want[i]
    ensures forall i :: hi <= i < |AllTypes(mods)| ==> AllTypes(mods)[i].methods == before[i]
  {
    // ImportReference binds the reflected templates into this module unchanged.
    var getComponentRef, getComponentArrayRef := getComponent, getComponentArray;
    ghost var lo', hi' := AllTypesModule(mods, mi);
    ModuleTypesInAll(mods, mi);
    hi := hi';
    ghost var all := AllTypes(mods);
    ghost var mid := MethodLists(all);
    assert forall i :: lo <= i < hi ==> mid[i] == before[i];
    PostProcessModuleAt(mods, mi, getComponentRef, getComponentArrayRef, mid);
    forall i | lo <= i < hi ensures all[i].methods == want[i] {
      assert want[i] == WeaveAwake(all[i].baseTypeName, all[i].fields, before[i], getComponent, getComponentArray);
    }
  }

  /** The pass over every module and every type of an assembly. The two
      templates are the first generic GetComponent and the first generic
      parameterless GetComponents among MonoBehaviour's methods; their absence
      makes the source throw, hence the first requirement. */
  method PostProcessAssembly(assembly: AssemblyDefinition, monoBehaviourMethods: seq<Template>)
    returns (messages: seq<Diagnostic>)
    requires LookupTemplate(monoBehaviourMethods, GetComponentName, false).Some?
    requires LookupTemplate(monoBehaviourMethods, GetComponentsName, true).Some?
    requires Distinct(AllTypes(assembly.modules))
    requires forall t :: t in AllTypes(assembly.modules) ==> AwakeReady(t.baseTypeName, t.fields, t.methods)
    modifies AllTypes(assembly.modules)
    ensures messages == []
    ensures forall i :: 0 <= i < |AllTypes(assembly.modules)| ==>
      var t := AllTypes(assembly.modules)[i];
      t.methods == WeaveAwake(t.baseTypeName, t.fields, old(t.methods),
                              LookupTemplate(monoBehaviourMethods, GetComponentName, false).value,
                              LookupTemplate(monoBehaviourMethods, GetComponentsName, true).value)
  {
    messages := [];
    var getComponent := LookupTemplate(monoBehaviourMethods, GetComponentName, false).value;
    var getComponentArray := LookupTemplate(monoBehaviourMethods, GetComponentsName, true).value;
    var mods := assembly.modules;
    ghost var all := AllTypes(mods);
    ghost var before := MethodLists(all);
    ghost var want := AwakeListsExist(before, all, getComponent, getComponentArray);
    assert forall i :: 0 <= i < |all| ==> all[i] in all;
    AwakeModules(mods, getComponent, getComponentArray, before, want);
    AwakeAsWanted(before, all, want, getComponent, getComponentArray, MethodLists(all));
  }

  /** The loop over the modules: every type goes from its method list in
      `before` to its list in `want`. */
  method AwakeModules(mods: seq<ModuleDefinition>, getComponent: Template, getComponentArray: Template,
                      ghost before: seq<seq<MethodDef>>, ghost want: seq<seq<MethodDef>>)
    requires Distinct(AllTypes(mods)) && before == MethodLists(AllTypes(mods))
    requires forall i :: 0 <= i < |AllTypes(mods)| ==>
      AwakeReady(AllTypes(mods)[i].baseTypeName, AllTypes(mods)[i].fields, before[i])
    requires AwakeWeavesTo(before, AllTypes(mods), want, getComponent, getComponentArray)
    modifies AllTypes(mods)
    ensures forall i :: 0 <= i < |AllTypes(mods)| ==> AllTypes(mods)[i].methods == want[i]
  {
    ghost var all := AllTypes(mods);
    ghost var lo := 0;
    assert mods[..0] == [];
    for mi := 0 to |mods|
      invariant lo == |AllTypes(mods[..mi])| <= |all|
      invariant forall i :: 0 <= i < lo ==> all[i].methods == want[i]
      invariant forall i :: lo <= i < |all| ==> all[i].methods == before[i]
    {
      lo := PostProcessModuleStep(mods, mi, getComponent, getComponentArray, before, want, lo);
    }
    AllTypesWhole(mods);
  }
}
