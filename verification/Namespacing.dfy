/** The string names given to inlined nodes and boundary pins, and why they cannot clash. */
module Namespacing {

  datatype BoundaryKind = Inlet | Outlet

  function NamespacedId(namespace: string, id: string): string {
    if namespace == "" then id else namespace + "::" + id
  }

  function NamespacePrefix(namespace: string): string {
    if namespace == "" then "" else namespace + "::"
  }

  function KindName(kind: BoundaryKind): string {
    if kind.Inlet? then "inlet" else "outlet"
  }

  function PinName(namespace: string, kind: BoundaryKind, key: string): string {
    NamespacePrefix(namespace) + "@" + KindName(kind) + "::" + key
  }

  /** The namespace reached by nesting subpatch nodes with the given ids. */
  function PathName(path: seq<string>): string {
    if path == [] then "" else NamespacedId(PathName(path[..|path| - 1]), path[|path| - 1])
  }

  /** An identifier that cannot be mistaken for a namespaced one. */
  predicate Plain(id: string) {
    id != "" && ':' !in id && '@' !in id
  }

  predicate PlainPath(path: seq<string>) {
    forall k :: 0 <= k < |path| ==> Plain(path[k])
  }

  lemma PathNameNext(path: seq<string>, id: string)
    ensures PathName(path + [id]) == NamespacedId(PathName(path), id)
  {
    assert (path + [id])[..|path|] == path;
  }

  lemma {:induction false} PathNameShape(path: seq<string>)
    requires PlainPath(path)
    ensures PathName(path) == "" <==> path == []
    ensures '@' !in PathName(path)
  {
    if path != [] {
      PathNameShape(path[..|path| - 1]);
    }
  }

  /** Where the last part of a namespaced id lies: just after the last colon. */
  lemma LastPart(x: string, a: string)
    requires Plain(a)
    ensures var s := NamespacedId(x, a);
            && |a| <= |s| && s[|s| - |a|..] == a
            && (forall i :: |s| - |a| <= i < |s| ==> s[i] != ':')
            && (x == "" ==> s == a)
            && (x != "" ==> |a| + 2 <= |s| && s[|s| - |a| - 1] == ':' && s[..|s| - |a| - 2] == x)
  {
  }

  lemma LastPartUnique(x: string, a: string, y: string, b: string)
    requires Plain(a) && Plain(b)
    requires NamespacedId(x, a) == NamespacedId(y, b)
    ensures a == b && x == y
  {
    LastPart(x, a);
    LastPart(y, b);
  }

  /** Different nesting paths have different names. */
  lemma {:induction false} PathNameInjective(p: seq<string>, q: seq<string>)
    requires PlainPath(p) && PlainPath(q) && PathName(p) == PathName(q)
    ensures p == q
  {
    PathNameShape(p);
    PathNameShape(q);
    if p != [] {
      LastPartUnique(PathName(p[..|p| - 1]), p[|p| - 1], PathName(q[..|q| - 1]), q[|q| - 1]);
      PathNameInjective(p[..|p| - 1], q[..|q| - 1]);
      assert p == p[..|p| - 1] + [p[|p| - 1]];
      assert q == q[..|q| - 1] + [q[|q| - 1]];
    }
  }

  lemma FirstMarker(p: string, rest: string, q: string, rest': string)
    requires '@' !in p && '@' !in q
    requires p + "@" + rest == q + "@" + rest'
    ensures p == q && rest == rest'
  {
    var s := p + "@" + rest;
    assert s[|p|] == '@' && s[|q|] == '@';
    assert forall i :: 0 <= i < |p| ==> s[i] == p[i];
    assert forall i :: 0 <= i < |q| ==> s[i] == q[i];
    assert s[|p| + 1..] == rest && s[|q| + 1..] == rest';
  }

  lemma KindNameUnique(kind: BoundaryKind, key: string, kind': BoundaryKind, key': string)
    requires KindName(kind) + "::" + key == KindName(kind') + "::" + key'
    ensures kind == kind' && key == key'
  {
    var a, b := KindName(kind) + "::", KindName(kind') + "::";
    assert (a + key)[0] == a[0] && (b + key')[0] == b[0];
    assert (a + key)[|a|..] == key && (b + key')[|b|..] == key';
  }

  lemma PrefixUnique(x: string, y: string)
    requires NamespacePrefix(x) == NamespacePrefix(y)
    ensures x == y
  {
    assert x != "" ==> NamespacePrefix(x)[..|NamespacePrefix(x)| - 2] == x;
    assert y != "" ==> NamespacePrefix(y)[..|NamespacePrefix(y)| - 2] == y;
  }

  /** A pin name determines the instance, the kind of boundary and the key. */
  lemma PinNameInjective(p: seq<string>, kind: BoundaryKind, key: string, q: seq<string>, kind': BoundaryKind,
                         key': string)
    requires PlainPath(p) && PlainPath(q)
    requires PinName(PathName(p), kind, key) == PinName(PathName(q), kind', key')
    ensures p == q && kind == kind' && key == key'
  {
    PathNameShape(p);
    PathNameShape(q);
    SplitPinName(PathName(p), kind, key);
    SplitPinName(PathName(q), kind', key');
    FirstMarker(NamespacePrefix(PathName(p)), KindName(kind) + "::" + key,
                NamespacePrefix(PathName(q)), KindName(kind') + "::" + key');
    KindNameUnique(kind, key, kind', key');
    PrefixUnique(PathName(p), PathName(q));
    PathNameInjective(p, q);
  }

  lemma SplitPinName(namespace: string, kind: BoundaryKind, key: string)
    ensures PinName(namespace, kind, key) == NamespacePrefix(namespace) + "@" + (KindName(kind) + "::" + key)
  {
  }
}
