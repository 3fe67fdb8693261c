/**
 * Names as the decompiler sees them: a simple name, a qualified name made of
 * simple-name segments (the root package is the empty sequence), and the
 * identifier of a compiled class.
 */
module Names {

  /** A simple (one-segment) name, special names included. */
  type Name = string

  /** A fully qualified name, one segment per package or class level. */
  type FqName = seq<Name>

  /** FqName.child: the qualified name one segment deeper. */
  function FqChild(fqName: FqName, name: Name): (r: FqName)
    ensures |r| == |fqName| + 1
    ensures r[..|fqName|] == fqName && r[|fqName|] == name
  {
    fqName + [name]
  }

  /** A class identifier: its package and its name relative to that package. */
  datatype ClassId = ClassId(packageFqName: FqName, relativeClassName: FqName)
}
