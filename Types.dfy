/**
 * The reflection vocabulary the container relies on: types, registration names, and the errors it raises.
 * `Type` is opaque in the container's code; only its hash code, whether it is generic, and its
 * generic definition are ever consulted, so those are the only facts a `Type` carries here.
 */
module Types {
  import opened Wrappers

  /** A 32-bit signed integer, as returned by `GetHashCode`. */
  newtype Int32 = x: int | -0x8000_0000 <= x < 0x8000_0000

  /**
   * A runtime type: an ordinary (non-generic) type, an open generic definition such as `List<>`,
   * or a closed generic such as `List<int>` that remembers its definition.
   */
  datatype Type =
    | Plain(id: nat, hashCode: Int32)
    | Definition(id: nat, hashCode: Int32)
    | Closed(id: nat, hashCode: Int32, definitionId: nat, definitionHash: Int32)

  /** `TypeInfo.IsGenericType`: true of open definitions and closed generics alike. */
  predicate IsGenericType(t: Type) {
    t.Definition? || t.Closed?
  }

  /** `TypeInfo.IsGenericTypeDefinition`. */
  predicate IsGenericTypeDefinition(t: Type) {
    t.Definition?
  }

  /** `Type.GetGenericTypeDefinition()`, defined on generic types only. */
  function GenericTypeDefinition(t: Type): (d: Type)
    requires IsGenericType(t)
    ensures IsGenericTypeDefinition(d)
  {
    match t
    case Definition(_, _) => t
    case Closed(_, _, defId, defHash) => Definition(defId, defHash)
  }

  /** The generic definition of a generic type, and any other type itself; only a closed generic differs. */
  function GenericOrSelf(t: Type): (g: Type)
    ensures g != t <==> t.Closed?
  {
    if IsGenericType(t) then GenericTypeDefinition(t) else t
  }

  /** A registration name; `None` is the C# `null` name of the default registration. */
  type Name = Option<string>

  /** A registry key; the process-wide default policies live under the `null` type. */
  type Key = Option<Type>

  /** Name normalisation: the empty name and the null name both denote the default registration. */
  function NormalizeName(n: Name): (r: Name)
    ensures r != Some("")
    ensures r.None? <==> (n.None? || n == Some(""))
    ensures r.Some? ==> r == n
  {
    if n.None? || n.value == "" then None else n
  }

  /** The exceptions the core raises, with the data they carry. */
  datatype Error =
    | ArgumentNull(parameter: string)
    | Argument(parameter: string)
    | ResolutionFailed(requestedType: Key, requestedName: Name)
}
