/** Dotted qualified names (`FqName`) and class identifiers (`ClassId`) as strings: the root name is the
    empty string, and segments are separated by '.'. */
module FqNames {

  /** Index just past the last '.' of `s`, or 0 when there is none. */
  function AfterLastDot(s: string): (k: nat)
    ensures k <= |s|
    ensures k > 0 ==> s[k - 1] == '.'
    ensures forall j :: k <= j < |s| ==> s[j] != '.'
  {
    if s == [] then 0
    else if s[|s| - 1] == '.' then |s|
    else AfterLastDot(s[..|s| - 1])
  }

  /** `FqName.shortName()`: the last segment. */
  function ShortName(fq: string): (r: string)
    ensures '.' !in r
    ensures fq == Parent(fq) + (if |r| < |fq| then "." else "") + r
  {
    fq[AfterLastDot(fq)..]
  }

  /** `FqName.parent()`: everything before the last '.', the root for a single segment. */
  function Parent(fq: string): string {
    var k := AfterLastDot(fq);
    if k == 0 then "" else fq[..k - 1]
  }

  /** `FqName.child(name)` */
  function Child(fq: string, name: string): (r: string)
    ensures '.' !in name ==> ShortName(r) == name
    ensures '.' !in name && name != [] ==> Parent(r) == fq
    ensures fq == "" ==> r == name
  {
    var r := if fq == "" then name else fq + "." + name;
    assert fq != "" ==> r[..|fq|] == fq && r[|fq|] == '.' && r[|fq| + 1..] == name;
    if '.' in name then r
    else AfterLastDotOfSuffix(r, if fq == "" then 0 else |fq| + 1); r
  }

  lemma AfterLastDotOfSuffix(s: string, k: nat)
    requires k <= |s|
    requires k > 0 ==> s[k - 1] == '.'
    requires forall j :: k <= j < |s| ==> s[j] != '.'
    ensures AfterLastDot(s) == k
    decreases |s|
  {
    if |s| > k {
      assert s[..|s| - 1][..] == s[..|s| - 1];
      AfterLastDotOfSuffix(s[..|s| - 1], k);
    }
  }

  /** `ClassId(packageFqName, relativeClassName, isLocal)` */
  datatype ClassId = ClassId(packageFqName: string, relativeClassName: string, isLocal: bool)

  /** `ClassId.topLevel(fqName)` */
  function TopLevel(fq: string): (id: ClassId)
    ensures !id.isLocal
    ensures id.relativeClassName == ShortName(fq) && id.packageFqName == Parent(fq)
  {
    ClassId(Parent(fq), ShortName(fq), false)
  }
}
