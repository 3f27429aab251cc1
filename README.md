# ILAwake weavers in Dafny

ILAwake is a Unity editor extension that post-processes compiled assemblies.
It injects field initialisation code at the start of a method, so that a component
does not have to write `x = GetComponent<T>()` by hand. This project models its two
weaving passes over an abstract picture of a compiled module, and proves what each
pass does to the method lists and bodies of the types it sees.

- **The single-rule pass** (`IlAwakePostProcessor.PostProcessAssembly`):
  - It handles every type whose base type is named `MonoBehaviour`.
  - Each field carrying an `AwakeGet` attribute is sorted into a scalar bucket or an array bucket.
  - The pass takes the last method named `Awake`, or appends a fresh one with body `[Ret]`.
  - In front of its first original instruction it splices one four-instruction block per field:
    `Ldarg0, Ldarg0, Call GetComponent<T> | GetComponents<E>, Stfld f`.
- **The multi-rule pass** (`CodeGenerator.GenerateCodeForAttributeName`) is driven by an ordered list of rules (`MethodPair`).
  - For every type of every module, the buckets of every rule are cleared.
  - Each field is filed, per attribute, under the first rule whose attribute name matches.
  - Every rule with fields makes three-instruction blocks `Ldarg0, Call, Stfld` and puts them in front of its target method's body.
  - After such a rule, a receiver load `Ldarg0` may go in front of the last rule's target. This happens when the rule is not a static call and the next rule is (or there is none).
  - Finally, a `Nop` is placed in front of the last rule's target, on every type.
  - Both passes locate or create their target; the multi-rule pass uses `GetOrCreateMethod`, which takes the first method with the name.
- **`MethodPair`** is a class:
  - its configuration is read-only;
  - it holds the resolved templates, the imported references and the two buckets;
  - `Clear` empties the buckets.

Files:
- `IlModel.dfy`: the data model. It holds:
  - type references and their resolution, fields, templates, instructions and method values;
  - the `TypeDefinition`, `ModuleDefinition` and `AssemblyDefinition` classes, whose method lists are updated in place;
  - lookups by name and insertion in front of a captured instruction;
  - the list of all types of an assembly.
- `CollectionHelpers.dfy`: the `MethodPair` class.
- `IlAwakePostProcessor.dfy`: `WillProcess` and the single-rule pass.
  - It has a value-level specification (`WeaveAwake`) and the properties proved about it.
  - The imperative pass (loops over modules, types, fields and attributes, and in-place insertion) is proved to produce exactly that specification.
- `CodeGenerator.dfy`: the multi-rule pass, organised the same way.
  - The specification is `GetOrCreate`, `Bucket`, `WeaveRule`, `ApplyRules` and `WeaveTypeRules`, together with their properties.
  - The methods `GetOrCreateMethod`, `GenerateCodeWithField`, the classification loops, the rule loop, `GenerateForType` and `GenerateCodeForAttributeName` are each proved against it.

How foreign calls are modelled:
- **Reflection**: the query `typeof(X).GetMethods().First/FirstOrDefault(...)` is a lookup into a list of `Template` records (name, generic or not, parameter count), giving an `Option`.
- **Cecil `ImportReference`**: the identity.
- **Cecil `Resolve` on an array type**: it gives the innermost element type.
- **`ILProcessor.InsertBefore(first, x)`**: `first` is captured once, so this inserts at index "number of instructions already inserted in this call". `Instructions[0]`, read again for every rule, is index 0.

Where the source throws, the model has a precondition:
- `First` finds nothing, so the two GetComponent templates must exist.
- `ImportReference(null)`, so every rule's lookups must succeed when there is a module.
- `Instructions[0]` on an empty body, so the chosen target must have an instruction.
- `pairs.Last()` on no rules, so there must be rules when there is a type.

### Behaviour the model keeps

- **Filtering**:
  - The multi-rule pass's base-type filter `BaseType != null && BaseType == null && ...` at `Editor/CodeGenerator.cs:61-63` can never hold. So every type is processed, including types that are not components (`SkipsNoType`).
  - Every processed type receives the `Nop`.
- **Directives per field**:
  - In the multi-rule pass, a field is filed once per attribute, not once per field: the `break` at `Editor/CodeGenerator.cs:88` leaves only the loop over rules.
  - Attributes of different rules file the field under each of them (`BucketMember`).
  - Two attributes of one rule file it twice (`AttrHitsCopies`, `ScenarioDuplicateAttribute`).
  - The single-rule pass stops at the first `AwakeGet` (`Editor/IlAwakePostProcessor.cs:87`), so there each marked field is filed once (`AwakeGetPartition`).
- **Block order between rules**:
  - `GenerateCodeWithField` inserts in front of the current first instruction (`Editor/CodeGenerator.cs:138`).
  - So a later rule's blocks land in front of an earlier rule's on a shared target (`TwoRulesSharedTarget`).
- **The receiver load**:
  - The extra `Ldarg0` always goes to the last rule's target (`Editor/CodeGenerator.cs:114`), not to the current rule's target.
  - It depends on the next rule's `IsStaticCall` (`NeedsReceiver`).

## Model

| member | source | states |
|---|---|---|
| IlAwakePostProcessor.WillProcessIffNotUnity | Editor/IlAwakePostProcessor.cs:22-25 | an assembly is not processed exactly when its name is "Unity" followed by anything |
| IlModel.Resolve | Editor/IlAwakePostProcessor.cs:143 | resolving gives a named, non-array type; a named type resolves to itself, an array type to the resolution of its element type |
| IlModel.NewMethod | Editor/IlAwakePostProcessor.cs:107-113 | the synthesised method has the given name, is private and hide-by-sig, returns void, has InitLocals set and the body `[Ret]` |
| IlModel.LastNamed | Editor/IlAwakePostProcessor.cs:94-101 | the result names a method with the name and no later method has it; None exactly when no method has the name |
| IlModel.FirstNamed | Editor/CodeGenerator.cs:14-20 | the result names a method with the name and no earlier method has it; None exactly when no method has the name |
| IlModel.FirstMatching | Editor/CodeGenerator.cs:38-46 | the first template that is generic, has the name and, for the array variant, no parameters; None exactly when none matches |
| IlModel.InsertBeforeFirst | Editor/IlAwakePostProcessor.cs:123 | inserting in front of the captured first original instruction appends to what was injected before it, and the original body stays its suffix |
| IlModel.InsertFourBeforeFirst | Editor/IlAwakePostProcessor.cs:123-130 | four insertions in front of the captured instruction leave the four instructions in order between the earlier injection and the original body |
| IlModel.InsertThreeBeforeFirst | Editor/CodeGenerator.cs:146-152 | the same for the three instructions of a multi-rule block |
| IlAwakePostProcessor.AwakeGetFieldsMember | Editor/IlAwakePostProcessor.cs:73-90 | a field is in the array bucket exactly when it is a field of the type, carries AwakeGet and has an array type; in the scalar bucket exactly when it carries AwakeGet and has no array type |
| IlAwakePostProcessor.AwakeGetPartition | Editor/IlAwakePostProcessor.cs:73-90 | as multisets, the two buckets together are exactly the marked fields: each marked field lands once and in one bucket, however many AwakeGet attributes it has |
| IlAwakePostProcessor.MarkedFieldsEmpty | Editor/IlAwakePostProcessor.cs:92 | both buckets are empty exactly when no field carries AwakeGet |
| IlAwakePostProcessor.WeaveAwake | Editor/IlAwakePostProcessor.cs:64-149 | definition, with no contract of its own: a type that is not a MonoBehaviour, or has no marked field, keeps its list; otherwise Awake is located or created and gets the scalar blocks, then the array blocks, in front of its body. The lemmas below and WeaveType state what this means |
| IlAwakePostProcessor.WeaveAwakeUnchanged | Editor/IlAwakePostProcessor.cs:66-68 | a type's method list is left exactly as it was if and only if its base type is absent or not MonoBehaviour, or no field is marked |
| IlAwakePostProcessor.WeaveAwakeTarget | Editor/IlAwakePostProcessor.cs:94-149 | for a woven type, Awake is the last method so named, or one appended at the end. Its body is the injection followed by the old body, which grew by exactly 4 × (scalar + array fields). The old body is its suffix, every other method is unchanged, and an appended Awake is the fresh method |
| IlAwakePostProcessor.WithAwakeIsLast | Editor/IlAwakePostProcessor.cs:94-114 | after the lookup or creation, the method chosen is the last one named Awake |
| IlAwakePostProcessor.AwakeInjectionLayout | Editor/IlAwakePostProcessor.cs:116-149 | scalar field i has its block at offset 4i, calling GetComponent on its own type. Array field i has its block at offset 4 × scalars + 4i, calling GetComponents on the resolved element type, which is never an array and never the field's own type |
| IlAwakePostProcessor.ScenarioSingleField | Editor/IlAwakePostProcessor.cs:64-149 | a MonoBehaviour with one marked field `a: Foo` and no methods gets one new Awake whose body is `Ldarg0, Ldarg0, Call GetComponent<Foo>, Stfld a, Ret` |
| IlAwakePostProcessor.CollectAwakeGetFields | Editor/IlAwakePostProcessor.cs:73-90 | the loops over fields and attributes, with the break at the first AwakeGet, add exactly the scalar and the array AwakeGet fields, in order |
| IlAwakePostProcessor.FindAwake | Editor/IlAwakePostProcessor.cs:94-101 | the scan keeps the last method named Awake, or none |
| IlAwakePostProcessor.InsertAwakeFieldBlock | Editor/IlAwakePostProcessor.cs:121-130 | the four insertions for one field put its block right in front of the original body, and the captured instruction moves four places |
| IlAwakePostProcessor.InsertAwakeBlocks | Editor/IlAwakePostProcessor.cs:119-149 | one insertion loop puts the blocks of a whole bucket, in order, between what was injected before and the original body |
| IlAwakePostProcessor.InjectAwake | Editor/IlAwakePostProcessor.cs:116-149 | after both loops, the Awake body is the scalar blocks, then the array blocks, then the original body; no other method changes |
| IlAwakePostProcessor.WeaveType | Editor/IlAwakePostProcessor.cs:70-150 | weaving one MonoBehaviour type, with buckets cleared first, gives exactly the specified method list |
| IlAwakePostProcessor.PostProcessModule | Editor/IlAwakePostProcessor.cs:64-151 | every type of the module gets the specified method list, computed from its own old list; non-MonoBehaviour types keep theirs |
| IlAwakePostProcessor.PostProcessModuleAt | Editor/IlAwakePostProcessor.cs:59-151 | the pass over one module weaves exactly that module's types, and every other type of the assembly keeps its methods |
| IlAwakePostProcessor.PostProcessModuleStep | Editor/IlAwakePostProcessor.cs:59-151 | after module mi, the types of modules 0 to mi are woven and all later ones are untouched |
| IlAwakePostProcessor.AwakeModules | Editor/IlAwakePostProcessor.cs:59-152 | the loop over the modules weaves every type of the assembly to its specified list |
| IlAwakePostProcessor.PostProcessAssembly | Editor/IlAwakePostProcessor.cs:45-155 | with both templates found, every type of every module ends with the specified method list, computed from its own old list, and the returned message list is empty |
| CodeGenerator.GetOrCreate | Editor/CodeGenerator.cs:11-30 | the returned index names the first method with the name. The list is unchanged when one exists; otherwise exactly one fresh method is appended and returned |
| CodeGenerator.GetOrCreateIdempotent | Editor/CodeGenerator.cs:11-30 | a second call returns the same method and adds nothing |
| CodeGenerator.GetOrCreateCount | Editor/CodeGenerator.cs:14-29 | the number of methods with the name becomes one if it was zero and stays as it was otherwise |
| CodeGenerator.GetOrCreateExtends | Editor/CodeGenerator.cs:11-30 | every method already in the list keeps its index and stays exactly as it was (so every old body is a suffix of the new one), and a method it appends has a body |
| CodeGenerator.GetOrCreateMethod | Editor/CodeGenerator.cs:11-30 | the search loop and the append leave the type's methods, and return the index, exactly as GetOrCreate says |
| CodeGenerator.FirstRule | Editor/CodeGenerator.cs:75-89 | the first rule, in list order, whose attribute name is the attribute's; None exactly when no rule has it |
| CodeGenerator.AttrHitsMember | Editor/CodeGenerator.cs:73-92 | one field's attributes add the field to rule j's bucket of its kind exactly when one attribute's first matching rule is j |
| CodeGenerator.BucketMember | Editor/CodeGenerator.cs:71-93 | a field is in rule j's bucket of its kind exactly when it is a field of the type and one of its attributes first matches rule j. A field with attributes of several rules is in each of them |
| CodeGenerator.AttrHitsCopies | Editor/CodeGenerator.cs:73-92 | a field's attributes add exactly one copy of the field, to the bucket of its kind, for each attribute whose first matching rule is j, since the break leaves only the loop over rules |
| CodeGenerator.ScenarioDuplicateAttribute | Editor/CodeGenerator.cs:71-93 | a simple field carrying rule 0's attribute twice ends up twice in rule 0's simple bucket |
| CodeGenerator.BlocksLayout | Editor/CodeGenerator.cs:141-153 | the blocks of a bucket have length 3 × its fields; field i's block, at offset 3i, loads the receiver, calls the template on the field's argument and stores into the field |
| CodeGenerator.RuleBlockLayout | Editor/CodeGenerator.cs:141-172 | a rule's injection has length 3 × (simple + array fields). Simple field i is at 3i, called on its declared type; array field i is at 3 × simple + 3i, called on its resolved element type |
| CodeGenerator.WeaveRuleTarget | Editor/CodeGenerator.cs:132-174 | after one rule, its target is the method GetOrCreateMethod gives. That method's body is the rule's blocks followed by its previous body, grown by exactly 3 × fields; all other methods are unchanged |
| CodeGenerator.WeaveTypeRulesExtends | Editor/CodeGenerator.cs:97-125 | the whole pass on a type never removes or renames a method, and every original body is a suffix of the new one |
| CodeGenerator.WeaveTypeRulesNop | Editor/CodeGenerator.cs:121-125 | every processed type, with or without marked fields, ends with a method named after the last rule's target whose first instruction is Nop |
| CodeGenerator.NeedsReceiver | Editor/CodeGenerator.cs:105-117 | definition, with no contract of its own: after rule i, a receiver load goes to the last rule's target exactly when rule i has fields, is not a static call, and the next rule is a static call or there is none |
| CodeGenerator.ApplyRules | Editor/CodeGenerator.cs:97-119 | definition, with no contract of its own: the method list after n iterations of the rule loop. A rule without fields is skipped; otherwise its blocks are woven, then the receiver load follows when NeedsReceiver says so. RunRules is proved to compute it |
| CodeGenerator.SharedTargetStep | Editor/CodeGenerator.cs:105-117 | one iteration on an existing target puts the receiver load (if due) and then the rule's blocks in front of that target's body, leaving the target at its index |
| CodeGenerator.TwoRulesSharedTarget | Editor/CodeGenerator.cs:97-125 | two rules with fields and one target give: Nop, the second rule's receiver load if it is not static, the second rule's blocks, the first rule's receiver load if it is not static and the second is, the first rule's blocks, the original body. Later rules land in front |
| CodeGenerator.RuleWithoutFieldsSkipped | Editor/CodeGenerator.cs:103 | a rule whose buckets are empty changes nothing in its own iteration, not even the receiver load |
| CodeGenerator.FieldlessRuleNotRemovable | Editor/CodeGenerator.cs:103-117 | a fieldless rule still decides the receiver load of the rule before it, so removing it from the list changes the result: a non-static rule with fields followed by a non-static fieldless rule emits no receiver load, and the same rule alone does |
| CodeGenerator.SkipsNoType | Editor/CodeGenerator.cs:61-63 | the base-type filter holds for no type, so none is skipped |
| CodeGenerator.InsertAtHead | Editor/CodeGenerator.cs:115-116 | inserting before `Instructions[0]` puts the instruction in front of the target's body and changes nothing else |
| CodeGenerator.InsertFieldBlock | Editor/CodeGenerator.cs:146-152 | the three insertions for one field put its block right in front of the original body, and the captured instruction moves three places |
| CodeGenerator.InsertBlocks | Editor/CodeGenerator.cs:141-172 | one insertion loop puts the blocks of a whole bucket, in order, between what was injected before and the original body |
| CodeGenerator.GenerateCodeWithField | Editor/CodeGenerator.cs:132-174 | the target located or created, then the simple blocks, then the array blocks in front of its first instruction, give exactly WeaveRule of the pair's rule |
| CodeGenerator.FileUnderFirstRule | Editor/CodeGenerator.cs:75-90 | one attribute adds the field to the bucket of its kind of the first rule with that attribute name, and to no other bucket |
| CodeGenerator.FileAttribute | Editor/CodeGenerator.cs:73-91 | filing attribute ai extends every bucket from the classification up to attribute ai to the one up to ai + 1 |
| CodeGenerator.ClassifyField | Editor/CodeGenerator.cs:73-92 | after all attributes of a field, every bucket holds the classification of the fields up to and including it |
| CodeGenerator.ClassifyFields | Editor/CodeGenerator.cs:71-93 | starting from empty buckets, every rule's buckets end up holding exactly its Bucket of the type's fields |
| CodeGenerator.ClearBuckets | Editor/CodeGenerator.cs:65-68 | every rule's two buckets are empty |
| CodeGenerator.ClassifyType | Editor/CodeGenerator.cs:65-93 | clearing and then classifying leaves in each rule's buckets the classification of this type's fields only, whatever they held before |
| CodeGenerator.ClassifiedRules | Editor/CodeGenerator.cs:71-93 | classified pairs with imported references stand for exactly the rules the specification derives from the type's fields |
| CodeGenerator.RunRules | Editor/CodeGenerator.cs:97-119 | the rule loop, with its `previousWasStatic` flag, leaves the method list ApplyRules gives |
| CodeGenerator.PrependInstr | Editor/CodeGenerator.cs:122-124 | the instruction goes in front of the named method, which is created first if missing |
| CodeGenerator.GenerateForType | Editor/CodeGenerator.cs:65-125 | the work on one type leaves exactly the method list WeaveTypeRules gives for the rules its fields produce |
| CodeGenerator.ImportReferences | Editor/CodeGenerator.cs:53-57 | every pair holds, as references, the templates its lookups found |
| CodeGenerator.ResolveInfos | Editor/CodeGenerator.cs:36-48 | every pair holds the first matching simple template and the first matching parameterless array template (or none) |
| CodeGenerator.WeaveTypeAt | Editor/CodeGenerator.cs:59-127 | the type at the index gets its specified list, and the others keep theirs |
| CodeGenerator.WeaveTypes | Editor/CodeGenerator.cs:59-127 | every type of the list is woven to its specified list, computed from its own old methods |
| CodeGenerator.GenerateForModule | Editor/CodeGenerator.cs:53-127 | after importing, every type of the module is woven, and every pair holds its imported references |
| CodeGenerator.GenerateForSegment | Editor/CodeGenerator.cs:53-127 | the module's types, seen within all types, are woven; the other types keep their methods and the pairs keep their resolved templates |
| CodeGenerator.GenerateForModuleStep | Editor/CodeGenerator.cs:51-128 | after module mi, the types of modules 0 to mi are woven and later ones are untouched |
| CodeGenerator.WeaveModules | Editor/CodeGenerator.cs:51-129 | the loop over modules weaves every type of the assembly; the references are imported once there is a module |
| CodeGenerator.GenerateCodeForAttributeName | Editor/CodeGenerator.cs:32-130 | every pair's templates are resolved, references are imported when there is a module, and every type of every module ends with WeaveTypeRules of its own old methods |
| CollectionHelpers.MethodPair.constructor | Editor/CollectionHelpers.cs:29-39 | every argument is stored unchanged in its field, both buckets start empty and no template or reference is set |
| CollectionHelpers.MethodPair.Clear | Editor/CollectionHelpers.cs:41-45 | both buckets are empty, and the templates and references keep their values (the configuration is read-only) |
| CollectionHelpers.ClearIdempotent | Editor/CollectionHelpers.cs:41-45 | clearing twice leaves the same state as clearing once |

## Left out

- `Process`, `LoadAssemblyDefinition` and `GetInstance` (`Editor/IlAwakePostProcessor.cs:17-43`, `157-179`) are not part of this model. They read and write PE and PDB streams, set up the symbol providers and the assembly resolver, and return the processor itself. That is I/O and serialisation.
- `Editor/IlViewerEditor.cs` is not part of this model. It is an editor window plus file reading.
- Generic instance, modifier and pointer types are not modelled: `TypeRef` has only named and array types. Cecil's `Resolve` on such a type also strips its type arguments, so for a `List<Foo>[]` field the source binds the open ``List`1``. The model has no such case.
- Reflection and Cecil internals are not modelled; they are inputs here:
  - The methods of `MonoBehaviour` and of a rule's capability type are lists of `Template` records given as input.
  - `ImportReference` is the identity.
  - `GenericInstanceMethod` is the instruction `Call(template, argument)`.
  - `Resolve` is a function on type references.
- IL validity and type-checking of the emitted blocks: the source checks neither, and the model promises neither.
- Diagnostics: the message lists are created and never filled. `MethodPair.messages` is stored as a value, not as a shared, mutable list.
- `WillProcess` compares the prefix character by character. The .NET `StartsWith(string)` is culture-sensitive, and that is not modelled.
- Object identity of instructions and methods is not modelled:
  - Methods are values inside their type's list, and the model finds the target by index.
  - The captured first instruction is modelled by its position.
- `IlAwakePostProcessor.PostProcessAssembly`: requires that no type object occurs twice in the assembly. The source does not demand this; a type listed twice would be woven twice.
- `IlAwakePostProcessor.PostProcessAssembly`: requires (`AwakeReady`) that every woven type's chosen Awake method has a first instruction. In the source, an empty existing Awake makes `Instructions[0]` throw.
- `CodeGenerator.GenerateCodeForAttributeName`: requires that no rule object occurs twice in the rule list, and that no type object occurs twice in the assembly. The source demands neither.
- `CodeGenerator.GenerateCodeForAttributeName`: requires (`AllReady`) that every type has, before the pass, the targets its rules need with a first instruction.
  - Where the source would throw on an empty body, the model excludes the input.
  - The same applies to the lookups: `LookupsSucceed` is required when there is a module, and rules are required when there is a type, where the source's `ImportReference(null)` or `pairs.Last()` would throw.
- `CodeGenerator.GenerateCodeForAttributeName`: states nothing about the buckets the pairs hold once the pass is over (those of the last type), and nothing about the references when there is no module.
- `CodeGenerator.GenerateForType`: requires that the targets it injects into have a first instruction, stated on the type's methods before the pass (`RulesReady`). In the source, a method someone else created with an empty body makes `Instructions[0]` throw.
- `IlAwakePostProcessor.WeaveType`: requires (`AwakeReady`) that the Awake method the pass picks has a first instruction, for the same reason.
