/** The tag-kind registry: `tagTypes` (name to code) and its inverse
    `tagTypeNames` (code to name).

    nbt.js identifies a kind by its one-byte wire code and registers the
    twelve kinds `end`..`intArray` with codes 0..11; the declaration file
    nbt.d.ts (and the reader tests) add `longArray` = 12. `Dialect` selects
    which of the two registries is in force.
 */
module TagTypes {
  import opened Outcomes

  /** A tag kind, as nbt.js holds it: its wire code. */
  type Kind = c: int | 0 <= c <= 12

  const End: Kind := 0
  const Byte: Kind := 1
  const Short: Kind := 2
  const Int: Kind := 3
  const Long: Kind := 4
  const Float: Kind := 5
  const Double: Kind := 6
  const ByteArray: Kind := 7
  const String: Kind := 8
  const List: Kind := 9
  const Compound: Kind := 10
  const IntArray: Kind := 11
  const LongArray: Kind := 12

  /** `Script` is the registry of nbt.js (codes 0..11); `Declared` is the
      one of nbt.d.ts, which also registers `longArray` = 12. */
  datatype Dialect = Script | Declared

  /** `k` appears in the registry of dialect `d`. */
  predicate Registered(d: Dialect, k: Kind) {
    d == Declared || k != LongArray
  }

  /** The reader and writer have a per-kind method for `k` (`this[code]`):
      every registered kind except `end`. */
  predicate HasHandler(d: Dialect, k: Kind) {
    k != End && Registered(d, k)
  }

  /** The highest code registered by a dialect. */
  function MaxCode(d: Dialect): Kind {
    if d == Script then IntArray else LongArray
  }

  /** `tagTypeNames[c]`, as a kind: the code itself when it is registered. */
  function KindOf(d: Dialect, c: int): (r: Option<Kind>)
    ensures r.Some? <==> 0 <= c <= 12 && Registered(d, c)
    ensures r.Some? ==> r.value == c
  {
    if 0 <= c <= MaxCode(d) then Some(c) else None
  }

  /** The registry's names, in code order. */
  const Names: seq<string> :=
    ["end", "byte", "short", "int", "long", "float", "double",
     "byteArray", "string", "list", "compound", "intArray", "longArray"]

  /** The registry's name of a kind. */
  function Name(k: Kind): string {
    Names[k]
  }

  /** The kind a name denotes, before consulting a dialect. */
  function KindNamed(name: string): (r: Option<Kind>)
    ensures r.Some? ==> Name(r.value) == name
  {
    if name == "end" then Some(End)
    else if name == "byte" then Some(Byte)
    else if name == "short" then Some(Short)
    else if name == "int" then Some(Int)
    else if name == "long" then Some(Long)
    else if name == "float" then Some(Float)
    else if name == "double" then Some(Double)
    else if name == "byteArray" then Some(ByteArray)
    else if name == "string" then Some(String)
    else if name == "list" then Some(List)
    else if name == "compound" then Some(Compound)
    else if name == "intArray" then Some(IntArray)
    else if name == "longArray" then Some(LongArray)
    else None
  }

  /** `tagTypes[name]`: the code of a registered name. */
  function TagTypes(d: Dialect, name: string): Option<Kind> {
    match KindNamed(name)
    case Some(k) => if Registered(d, k) then Some(k) else None
    case None => None
  }

  /** `tagTypeNames[code]`: the name registered for a code. */
  function TagTypeNames(d: Dialect, code: int): Option<string> {
    match KindOf(d, code)
    case Some(k) => Some(Name(k))
    case None => None
  }

  /** Every kind is found again under its own name. */
  lemma NameLookup(k: Kind)
    ensures KindNamed(Name(k)) == Some(k)
  {
    if k == End {} else if k == Byte {} else if k == Short {} else if k == Int {}
    else if k == Long {} else if k == Float {} else if k == Double {}
    else if k == ByteArray {} else if k == String {} else if k == List {}
    else if k == Compound {} else if k == IntArray {} else {}
  }

  /** `tagTypeNames` is the exact inverse of `tagTypes`, in both directions. */
  lemma TagTypeNamesInvertsTagTypes(d: Dialect, name: string, c: int)
    ensures TagTypes(d, name) == Some(c) <==> TagTypeNames(d, c) == Some(name)
  {
    if TagTypeNames(d, c) == Some(name) {
      NameLookup(c);
    }
  }

  /** Distinct kinds have distinct names. */
  lemma NamesInjective(k1: Kind, k2: Kind)
    ensures Name(k1) == Name(k2) ==> k1 == k2
  {
    NameLookup(k1);
    NameLookup(k2);
  }

  /** nbt.js registers exactly codes 0..11; the declarations register 0..12. */
  lemma RegistrySizes(c: int)
    ensures KindOf(Script, c).Some? <==> 0 <= c <= 11
    ensures KindOf(Declared, c).Some? <==> 0 <= c <= 12
    ensures KindOf(Script, 12) == None && KindOf(Declared, 12) == Some(LongArray)
  {
  }
}
