/** The injection rule record of the multi-rule weaver, together with the two
    field buckets that classification fills for the type being woven. */
module CollectionHelpers {
  import opened IlModel

  /** A diagnostic as handed back to the build pipeline. */
  datatype Severity = Info | Warning | Error
  datatype Diagnostic = Diagnostic(severity: Severity, text: string)

  class MethodPair {
    /** The capability type's public methods, as reflection lists them. */
    const whereToFind: seq<Template>
    const messages: seq<Diagnostic>
    const attributeName: string
    const insertMethodName: string
    const replaceMethodNameSimple: string
    const replaceMethodNameArray: string
    const isStaticCall: bool

    /** The resolved templates and their imported references; absent until assigned. */
    var simpleMethodInfo: Option<Template>
    var arrayMethodInfo: Option<Template>
    var simpleMethodReference: Option<Template>
    var arrayMethodReference: Option<Template>

    /** The buckets: fields classified for this rule on the current type. */
    var simpleFields: seq<Field>
    var arrayFields: seq<Field>

    constructor (attributeName: string, insertMethodName: string, replaceMethodNameSimple: string,
                 replaceMethodNameArray: string, messages: seq<Diagnostic>, whereToFind: seq<Template>,
                 isStaticCall: bool)
      ensures this.attributeName == attributeName && this.insertMethodName == insertMethodName
      ensures this.replaceMethodNameSimple == replaceMethodNameSimple
      ensures this.replaceMethodNameArray == replaceMethodNameArray
      ensures this.messages == messages && this.whereToFind == whereToFind
      ensures this.isStaticCall == isStaticCall
      ensures simpleFields == [] && arrayFields == []
      ensures simpleMethodInfo == None && arrayMethodInfo == None
      ensures simpleMethodReference == None && arrayMethodReference == None
    {
      this.attributeName := attributeName;
      this.insertMethodName := insertMethodName;
      this.replaceMethodNameSimple := replaceMethodNameSimple;
      this.replaceMethodNameArray := replaceMethodNameArray;
      this.messages := messages;
      this.whereToFind := whereToFind;
      this.isStaticCall := isStaticCall;
      simpleMethodInfo, arrayMethodInfo := None, None;
      simpleMethodReference, arrayMethodReference := None, None;
      simpleFields, arrayFields := [], [];
    }

    /** Empties both buckets; the resolved templates and references stay. */
    method Clear()
      modifies this`simpleFields, this`arrayFields
      ensures simpleFields == [] && arrayFields == []
      ensures simpleMethodInfo == old(simpleMethodInfo) && arrayMethodInfo == old(arrayMethodInfo)
      ensures simpleMethodReference == old(simpleMethodReference)
      ensures arrayMethodReference == old(arrayMethodReference)
    {
      simpleFields, arrayFields := [], [];
    }
  }

  /** Clearing twice leaves the same state as clearing once. */
  method ClearIdempotent(p: MethodPair)
    modifies p
    ensures p.simpleFields == [] && p.arrayFields == []
    ensures p.simpleMethodInfo == old(p.simpleMethodInfo) && p.arrayMethodInfo == old(p.arrayMethodInfo)
    ensures p.simpleMethodReference == old(p.simpleMethodReference)
    ensures p.arrayMethodReference == old(p.arrayMethodReference)
  {
    p.Clear();
    ghost var once := (p.simpleFields, p.arrayFields, p.simpleMethodInfo, p.arrayMethodInfo,
                       p.simpleMethodReference, p.arrayMethodReference);
    p.Clear();
    assert (p.simpleFields, p.arrayFields, p.simpleMethodInfo, p.arrayMethodInfo,
            p.simpleMethodReference, p.arrayMethodReference) == once;
  }
}
