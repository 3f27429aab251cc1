/** An abstract model of the parts of a compiled module that the weavers read
    and rewrite: types with their fields and methods, method bodies as
    instruction sequences, and the generic template methods that injected
    calls refer to. */
module IlModel {

  datatype Option<T> = None | Some(value: T)

  /** A reference to a type: a named type, or an array of some element type. */
  datatype TypeRef = Named(name: string) | ArrayOf(elem: TypeRef)

  predicate IsArray(t: TypeRef) {
    t.ArrayOf?
  }

  /** Resolving a type reference yields a type definition; for an array type
      that is the definition of its innermost element type. */
  function Resolve(t: TypeRef): (r: TypeRef)
    ensures r.Named? && !IsArray(r)
    ensures !IsArray(t) ==> r == t
    ensures t.ArrayOf? ==> r == Resolve(t.elem)
  {
    match t
    case Named(_) => t
    case ArrayOf(e) => Resolve(e)
  }

  /** A field: its name, its declared type and the type names of its custom attributes. */
  datatype Field = Field(name: string, fieldType: TypeRef, attributes: seq<string>)

  /** The generic argument bound for a field's call: its declared type, or for
      a field from an array bucket the resolved element type. */
  function GenericArg(f: Field, fromArray: bool): TypeRef
  {
    if fromArray then Resolve(f.fieldType) else f.fieldType
  }

  /** A generic template method as seen through reflection on a capability type. */
  datatype Template = Template(name: string, isGeneric: bool, paramCount: nat)

  /** The instructions the weavers read or emit. A call carries the template it
      instantiates and the single generic argument bound at the call site. */
  datatype Instr =
    | Ldarg0
    | Nop
    | Ret
    | Call(template: Template, genericArg: TypeRef)
    | Stfld(field: Field)

  datatype MethodAttribute = Private | Public | HideBySig | Static | Virtual | SpecialName

  datatype MethodDef = MethodDef(
    name: string,
    attributes: set<MethodAttribute>,
    returnType: TypeRef,
    initLocals: bool,
    body: seq<Instr>)

  /** The simple name of Unity's component base class. */
  const MonoBehaviourName: string := "MonoBehaviour"

  const Void: TypeRef := Named("System.Void")

  /** The method both weavers synthesise when the target method is missing:
      private, hide-by-sig, returning void, with InitLocals set and a body that
      is a single return. */
  function NewMethod(name: string): (m: MethodDef)
    ensures m.name == name && m.attributes == {Private, HideBySig} && m.returnType == Void
    ensures m.initLocals && m.body == [Ret]
  {
    MethodDef(name, {Private, HideBySig}, Void, true, [Ret])
  }

  /** The index of the first method called `name`, if any. */
  function FirstNamed(ms: seq<MethodDef>, name: string): (r: Option<nat>)
    ensures r.Some? ==> r.value < |ms| && ms[r.value].name == name
    ensures r.Some? ==> forall i :: 0 <= i < r.value ==> ms[i].name != name
    ensures r.None? ==> forall i :: 0 <= i < |ms| ==> ms[i].name != name
  {
    if ms == [] then None
    else if ms[0].name == name then Some(0)
    else match FirstNamed(ms[1..], name)
      case None => None
      case Some(k) => Some(k + 1)
  }

  /** FirstNamed depends only on the names of the methods. */
  lemma {:induction false} FirstNamedSameNames(a: seq<MethodDef>, b: seq<MethodDef>, name: string)
    requires |a| == |b| && forall i :: 0 <= i < |a| ==> a[i].name == b[i].name
    ensures FirstNamed(a, name) == FirstNamed(b, name)
  {
    match FirstNamed(a, name)
    case None =>
    case Some(k) =>
      assert b[k].name == name;
  }

  /** The number of methods called `name`. */
  function CountNamed(ms: seq<MethodDef>, name: string): nat
  {
    if ms == [] then 0
    else CountNamed(ms[..|ms| - 1], name) + (if ms[|ms| - 1].name == name then 1 else 0)
  }

  lemma {:induction false} CountNamedZero(ms: seq<MethodDef>, name: string)
    ensures CountNamed(ms, name) == 0 <==> FirstNamed(ms, name).None?
  {
    if ms != [] {
      var init := ms[..|ms| - 1];
      CountNamedZero(init, name);
      if FirstNamed(init, name).None? && ms[|ms| - 1].name != name {
        assert forall i :: 0 <= i < |ms| ==> ms[i].name != name by {
          forall i | 0 <= i < |ms| ensures ms[i].name != name {
            if i < |init| { assert ms[i] == init[i]; }
          }
        }
      }
      if FirstNamed(init, name).Some? {
        assert ms[FirstNamed(init, name).value] == init[FirstNamed(init, name).value];
      }
    }
  }

  /** The index of the last method called `name`, if any. */
  function LastNamed(ms: seq<MethodDef>, name: string): (r: Option<nat>)
    ensures r.Some? ==> r.value < |ms| && ms[r.value].name == name
    ensures r.Some? ==> forall i :: r.value < i < |ms| ==> ms[i].name != name
    ensures r.None? ==> forall i :: 0 <= i < |ms| ==> ms[i].name != name
  {
    if ms == [] then None
    else if ms[|ms| - 1].name == name then Some(|ms| - 1)
    else LastNamed(ms[..|ms| - 1], name)
  }

  /** The reflection query both weavers use to pick a template: a generic method
      with the given name, and for the collection variant no parameters. */
  predicate TemplateMatches(m: Template, name: string, noParams: bool)
  {
    m.isGeneric && m.name == name && (noParams ==> m.paramCount == 0)
  }

  /** The index of the first template that matches, if any. */
  function FirstMatching(ms: seq<Template>, name: string, noParams: bool): (r: Option<nat>)
    ensures r.Some? ==> r.value < |ms| && TemplateMatches(ms[r.value], name, noParams)
    ensures r.Some? ==> forall i :: 0 <= i < r.value ==> !TemplateMatches(ms[i], name, noParams)
    ensures r.None? ==> forall i :: 0 <= i < |ms| ==> !TemplateMatches(ms[i], name, noParams)
  {
    if ms == [] then None
    else if TemplateMatches(ms[0], name, noParams) then Some(0)
    else match FirstMatching(ms[1..], name, noParams)
      case None => None
      case Some(k) => Some(k + 1)
  }

  /** The first matching template itself, or None where the source gets null. */
  function LookupTemplate(ms: seq<Template>, name: string, noParams: bool): Option<Template>
  {
    match FirstMatching(ms, name, noParams)
    case None => None
    case Some(k) => Some(ms[k])
  }

  /** Inserts `x` at index `pos`: the effect of inserting before the
      instruction that currently sits at `pos`. */
  function InsertAt(s: seq<Instr>, pos: nat, x: Instr): seq<Instr>
    requires pos <= |s|
  {
    s[..pos] + [x] + s[pos..]
  }

  /** Inserting in front of the captured first original instruction appends to
      the block already injected there. */
  lemma InsertBeforeFirst(done: seq<Instr>, orig: seq<Instr>, x: Instr)
    ensures InsertAt(done + orig, |done|, x) == (done + [x]) + orig
  {
    assert (done + orig)[..|done|] == done;
    assert (done + orig)[|done|..] == orig;
  }

  /** Four insertions in front of the captured first original instruction
      leave the four instructions, in order, between what was injected
      before and the original body. */
  lemma InsertFourBeforeFirst(done: seq<Instr>, orig: seq<Instr>, a: Instr, b: Instr, c: Instr, d: Instr)
    ensures var n := |done|;
      InsertAt(InsertAt(InsertAt(InsertAt(done + orig, n, a), n + 1, b), n + 2, c), n + 3, d)
        == done + [a, b, c, d] + orig
  {
    InsertBeforeFirst(done, orig, a);
    InsertBeforeFirst(done + [a], orig, b);
    InsertBeforeFirst(done + [a, b], orig, c);
    InsertBeforeFirst(done + [a, b, c], orig, d);
    assert done + [a] + [b] == done + [a, b];
    assert done + [a, b] + [c] == done + [a, b, c];
    assert done + [a, b, c] + [d] == done + [a, b, c, d];
  }

  lemma InsertThreeBeforeFirst(done: seq<Instr>, orig: seq<Instr>, a: Instr, b: Instr, c: Instr)
    ensures var n := |done|;
      InsertAt(InsertAt(InsertAt(done + orig, n, a), n + 1, b), n + 2, c) == done + [a, b, c] + orig
  {
    InsertBeforeFirst(done, orig, a);
    InsertBeforeFirst(done + [a], orig, b);
    InsertBeforeFirst(done + [a, b], orig, c);
    assert done + [a] + [b] == done + [a, b];
    assert done + [a, b] + [c] == done + [a, b, c];
  }

  /** A slice of the right operand of a concatenation, taken through the concatenation. */
  lemma SliceRight<T>(s: seq<T>, a: seq<T>, lo: nat, hi: nat)
    requires lo <= hi <= |a|
    ensures (s + a)[|s| + lo .. |s| + hi] == a[lo..hi]
  {
    assert forall j :: 0 <= j < hi - lo ==> (s + a)[|s| + lo .. |s| + hi][j] == a[lo..hi][j];
  }

  /** Replaces the body of method `k` by `prefix` followed by its old body. */
  function PrependBody(ms: seq<MethodDef>, k: nat, prefix: seq<Instr>): (r: seq<MethodDef>)
    requires k < |ms|
    ensures |r| == |ms| && r[k].body == prefix + ms[k].body
    ensures r[k] == ms[k].(body := r[k].body)
    ensures forall i :: 0 <= i < |ms| && i != k ==> r[i] == ms[i]
  {
    ms[k := ms[k].(body := prefix + ms[k].body)]
  }

  /** `ms'` extends `ms` in the way weaving does: nothing is removed or renamed,
      old bodies are kept as suffixes, and appended methods have a body. */
  ghost predicate Extends(ms: seq<MethodDef>, ms': seq<MethodDef>)
  {
    |ms| <= |ms'| &&
    (forall i :: 0 <= i < |ms| ==> ms'[i].name == ms[i].name) &&
    (forall i :: 0 <= i < |ms| ==>
      |ms[i].body| <= |ms'[i].body| && ms'[i].body[|ms'[i].body| - |ms[i].body|..] == ms[i].body) &&
    (forall i :: |ms| <= i < |ms'| ==> |ms'[i].body| > 0)
  }

  lemma ExtendsReflexive(ms: seq<MethodDef>)
    ensures Extends(ms, ms)
  {
    forall i | 0 <= i < |ms| ensures ms[i].body[|ms[i].body| - |ms[i].body|..] == ms[i].body {
    }
  }

  lemma {:induction false} ExtendsTransitive(a: seq<MethodDef>, b: seq<MethodDef>, c: seq<MethodDef>)
    requires Extends(a, b) && Extends(b, c)
    ensures Extends(a, c)
  {
    forall i | 0 <= i < |a|
      ensures |a[i].body| <= |c[i].body| && c[i].body[|c[i].body| - |a[i].body|..] == a[i].body
    {
      var bb, cb := b[i].body, c[i].body;
      assert cb[|cb| - |bb|..] == bb;
      assert bb[|bb| - |a[i].body|..] == a[i].body;
      assert cb[|cb| - |a[i].body|..] == cb[|cb| - |bb|..][|bb| - |a[i].body|..];
    }
  }

  lemma PrependExtends(ms: seq<MethodDef>, k: nat, prefix: seq<Instr>)
    requires k < |ms|
    ensures Extends(ms, PrependBody(ms, k, prefix))
  {
    var r := PrependBody(ms, k, prefix);
    forall i | 0 <= i < |ms|
      ensures |ms[i].body| <= |r[i].body| && r[i].body[|r[i].body| - |ms[i].body|..] == ms[i].body
    {
      if i == k {
        assert r[i].body == prefix + ms[i].body;
      } else {
        assert r[i].body[|r[i].body| - |ms[i].body|..] == r[i].body[0..];
      }
    }
  }

  /** The target method called `name`, if present, has at least one instruction,
      so that reading its first instruction is defined. */
  predicate Targetable(ms: seq<MethodDef>, name: string)
  {
    match FirstNamed(ms, name)
    case None => true
    case Some(k) => |ms[k].body| > 0
  }

  lemma {:induction false} TargetableExtends(ms: seq<MethodDef>, ms': seq<MethodDef>, name: string)
    requires Extends(ms, ms') && Targetable(ms, name)
    ensures Targetable(ms', name)
  {
    match FirstNamed(ms', name)
    case None =>
    case Some(k) =>
      if k < |ms| {
        assert ms[k].name == name;
        match FirstNamed(ms, name)
        case None =>
        case Some(j) =>
          assert ms'[j].name == name;
          assert j == k;
      }
  }

  /** A type definition: its name, the name of its base type (absent for a type
      without one), its fields, and its method list, which weaving extends and
      rewrites in place. */
  class TypeDefinition {
    const name: string
    const baseTypeName: Option<string>
    const fields: seq<Field>
    var methods: seq<MethodDef>

    constructor (name: string, baseTypeName: Option<string>, fields: seq<Field>, methods: seq<MethodDef>)
      ensures this.name == name && this.baseTypeName == baseTypeName
      ensures this.fields == fields && this.methods == methods
    {
      this.name := name;
      this.baseTypeName := baseTypeName;
      this.fields := fields;
      this.methods := methods;
    }
  }

  /** A module: its type definitions in declaration order. */
  class ModuleDefinition {
    const types: seq<TypeDefinition>

    constructor (types: seq<TypeDefinition>)
      ensures this.types == types
    {
      this.types := types;
    }
  }

  class AssemblyDefinition {
    const modules: seq<ModuleDefinition>

    constructor (modules: seq<ModuleDefinition>)
      ensures this.modules == modules
    {
      this.modules := modules;
    }
  }

  /** Every type of every module, module by module in order. */
  function AllTypes(mods: seq<ModuleDefinition>): seq<TypeDefinition>
  {
    if mods == [] then [] else AllTypes(mods[..|mods| - 1]) + mods[|mods| - 1].types
  }

  /** The method lists of the given types, in order. */
  ghost function MethodLists(ts: seq<TypeDefinition>): (r: seq<seq<MethodDef>>)
    reads set t | t in ts
    ensures |r| == |ts| && forall i :: 0 <= i < |ts| ==> r[i] == ts[i].methods
  {
    if ts == [] then [] else MethodLists(ts[..|ts| - 1]) + [ts[|ts| - 1].methods]
  }

  /** No element occurs twice: each one is absent from those before it. */
  predicate Distinct<T(==)>(s: seq<T>)
  {
    s == [] || (Distinct(s[..|s| - 1]) && s[|s| - 1] !in s[..|s| - 1])
  }

  lemma {:induction false} DistinctApart<T>(s: seq<T>, i: nat, j: nat)
    requires Distinct(s) && i < j < |s|
    ensures s[i] != s[j]
  {
    var init := s[..|s| - 1];
    if j < |s| - 1 {
      DistinctApart(init, i, j);
    } else {
      assert init[i] == s[i];
    }
  }

  lemma {:induction false} DistinctIff<T>(s: seq<T>)
    ensures Distinct(s) <==> forall i, j :: 0 <= i < j < |s| ==> s[i] != s[j]
  {
    if s != [] {
      var init := s[..|s| - 1];
      DistinctIff(init);
      if Distinct(s) {
        forall i, j | 0 <= i < j < |s| ensures s[i] != s[j] {
          DistinctApart(s, i, j);
        }
      }
      if forall i, j :: 0 <= i < j < |s| ==> s[i] != s[j] {
        assert forall i, j :: 0 <= i < j < |init| ==> init[i] == s[i] && init[j] == s[j];
        forall k | 0 <= k < |init| ensures init[k] != s[|s| - 1] {
          assert init[k] == s[k];
        }
      }
    }
  }

  /** In a list without repetitions, the element at `k` is at no other position. */
  lemma DistinctOthers<T>(s: seq<T>, k: nat)
    requires Distinct(s) && k < |s|
    ensures forall i :: 0 <= i < |s| && i != k ==> s[i] != s[k]
  {
    forall i | 0 <= i < |s| && i != k ensures s[i] != s[k] {
      if i < k { DistinctApart(s, i, k); } else { DistinctApart(s, k, i); }
    }
  }

  /** The types of module `mi` sit in AllTypes from position `lo` to `hi`,
      right after those of the modules before it. */
  lemma AllTypesModule(mods: seq<ModuleDefinition>, mi: nat) returns (lo: nat, hi: nat)
    requires mi < |mods|
    ensures lo == |AllTypes(mods[..mi])| && hi == |AllTypes(mods[..mi + 1])|
    ensures hi == lo + |mods[mi].types| <= |AllTypes(mods)|
    ensures forall k :: 0 <= k < |mods[mi].types| ==> AllTypes(mods)[lo + k] == mods[mi].types[k]
  {
    var all := AllTypes(mods);
    var ts := mods[mi].types;
    AllTypesPrefix(mods, mi + 1);
    assert mods[..mi + 1][..mi] == mods[..mi];
    lo := |AllTypes(mods[..mi])|;
    assert AllTypes(mods[..mi + 1]) == AllTypes(mods[..mi]) + ts;
    var upto := AllTypes(mods[..mi + 1]);
    hi := |upto|;
    assert all[..hi] == upto;
    forall k | 0 <= k < |ts| ensures all[lo + k] == ts[k] {
      assert all[lo + k] == all[..hi][lo + k] == upto[lo + k];
    }
  }

  /** A stretch `s` of a list without repetitions has none either, and no entry
      outside the stretch is one of its elements. */
  lemma SegmentApart<T>(all: seq<T>, s: seq<T>, lo: nat)
    requires lo + |s| <= |all| && Distinct(all)
    requires forall k :: 0 <= k < |s| ==> all[lo + k] == s[k]
    ensures Distinct(s)
    ensures forall i :: 0 <= i < |all| && !(lo <= i < lo + |s|) ==> all[i] !in s
  {
    DistinctIff(all);
    DistinctIff(s);
    forall a, b | 0 <= a < b < |s| ensures s[a] != s[b] {
      assert all[lo + a] == s[a] && all[lo + b] == s[b];
    }
    forall i | 0 <= i < |all| && !(lo <= i < lo + |s|) ensures all[i] !in s {
      forall k | 0 <= k < |s| ensures all[i] != s[k] {
        assert all[lo + k] == s[k];
      }
    }
  }

  /** Every type of module `mi` is one of the types of the assembly. */
  lemma ModuleTypesInAll(mods: seq<ModuleDefinition>, mi: nat)
    requires mi < |mods|
    ensures forall t :: t in mods[mi].types ==> t in AllTypes(mods)
  {
    var lo, hi := AllTypesModule(mods, mi);
    forall t | t in mods[mi].types ensures t in AllTypes(mods) {
      var k :| 0 <= k < |mods[mi].types| && mods[mi].types[k] == t;
      assert AllTypes(mods)[lo + k] == t;
    }
  }

  /** AllTypes of a prefix of the modules is a prefix of AllTypes. */
  lemma {:induction false} AllTypesPrefix(mods: seq<ModuleDefinition>, n: nat)
    requires n <= |mods|
    ensures |AllTypes(mods[..n])| <= |AllTypes(mods)|
    ensures AllTypes(mods)[..|AllTypes(mods[..n])|] == AllTypes(mods[..n])
    decreases |mods|
  {
    if n < |mods| {
      var init := mods[..|mods| - 1];
      assert init[..n] == mods[..n];
      AllTypesPrefix(init, n);
      assert AllTypes(mods) == AllTypes(init) + mods[|mods| - 1].types;
    } else {
      assert mods[..n] == mods;
    }
  }

  lemma AllTypesWhole(mods: seq<ModuleDefinition>)
    ensures AllTypes(mods[..|mods|]) == AllTypes(mods)
  {
    assert mods[..|mods|] == mods;
  }
}
