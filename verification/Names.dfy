/** Resource names of the NVMe front end: `nvmeSubsystems/S`, `nvmeSubsystems/S/nvmeControllers/C` and
    `nvmeSubsystems/S/nvmeNamespaces/N`. A name is the '/'-separated join of its segments. */
module Names {
  import opened Text

  const SUBSYSTEMS := "nvmeSubsystems"
  const CONTROLLERS := "nvmeControllers"
  const NAMESPACES := "nvmeNamespaces"

  /** What every accepted or generated resource id satisfies. */
  predicate ValidId(id: string) {
    id != [] && '/' !in id
  }

  function SubsystemName(s: string): string {
    Join([SUBSYSTEMS, s], '/')
  }

  function ControllerName(s: string, c: string): string {
    Join([SUBSYSTEMS, s, CONTROLLERS, c], '/')
  }

  function NamespaceName(s: string, n: string): string {
    Join([SUBSYSTEMS, s, NAMESPACES, n], '/')
  }

  /** The subsystem id inside a name: its second segment. */
  function SubsystemIdOf(name: string): string {
    var parts := Split(name, '/');
    if |parts| >= 2 then parts[1] else []
  }

  /** The id of a controller or namespace: its fourth segment. */
  function ResourceIdOf(name: string): string {
    var parts := Split(name, '/');
    if |parts| >= 4 then parts[3] else []
  }

  predicate IsSubsystemName(key: string) {
    var parts := Split(key, '/');
    |parts| == 2 && parts[0] == SUBSYSTEMS && parts[1] != []
  }

  predicate IsChildName(key: string, collection: string) {
    var parts := Split(key, '/');
    |parts| == 4 && parts[0] == SUBSYSTEMS && parts[1] != [] && parts[2] == collection && parts[3] != []
  }

  predicate IsControllerName(key: string) {
    IsChildName(key, CONTROLLERS)
  }

  predicate IsNamespaceName(key: string) {
    IsChildName(key, NAMESPACES)
  }

  predicate IsResourceName(key: string) {
    IsSubsystemName(key) || IsControllerName(key) || IsNamespaceName(key)
  }

  predicate HasPrefix(s: string, prefix: string) {
    prefix <= s
  }

  /** The first test of the attach and detach loops. */
  predicate ControllerPrefixTest(key: string, subsystemName: string) {
    HasPrefix(key, subsystemName + "/nvmeControllers")
  }

  // ------------------------------------------------------------------ building and parsing

  lemma SubsystemNameParses(s: string)
    requires '/' !in s
    ensures Split(SubsystemName(s), '/') == [SUBSYSTEMS, s]
    ensures SubsystemIdOf(SubsystemName(s)) == s
    ensures s != [] ==> IsSubsystemName(SubsystemName(s))
  {
    SplitJoin([SUBSYSTEMS, s], '/');
  }

  lemma ChildNameParses(s: string, collection: string, id: string)
    requires '/' !in s && '/' !in collection && '/' !in id
    ensures Split(Join([SUBSYSTEMS, s, collection, id], '/'), '/') == [SUBSYSTEMS, s, collection, id]
  {
    SplitJoin([SUBSYSTEMS, s, collection, id], '/');
  }

  /** The subsystem id parsed from a built name is the id the name was built from. */
  lemma ControllerNameParses(s: string, c: string)
    requires '/' !in s && '/' !in c
    ensures SubsystemIdOf(ControllerName(s, c)) == s && ResourceIdOf(ControllerName(s, c)) == c
    ensures s != [] && c != [] ==> IsControllerName(ControllerName(s, c))
  {
    ChildNameParses(s, CONTROLLERS, c);
  }

  lemma NamespaceNameParses(s: string, n: string)
    requires '/' !in s && '/' !in n
    ensures SubsystemIdOf(NamespaceName(s, n)) == s && ResourceIdOf(NamespaceName(s, n)) == n
    ensures s != [] && n != [] ==> IsNamespaceName(NamespaceName(s, n))
  {
    ChildNameParses(s, NAMESPACES, n);
  }

  /** A key of one of the three shapes is rebuilt from the ids it parses to, and those ids are valid. */
  lemma NameIsRebuilt(key: string)
    requires IsResourceName(key)
    ensures ValidId(SubsystemIdOf(key))
    ensures IsSubsystemName(key) ==> key == SubsystemName(SubsystemIdOf(key))
    ensures IsControllerName(key) ==>
      ValidId(ResourceIdOf(key)) && key == ControllerName(SubsystemIdOf(key), ResourceIdOf(key))
    ensures IsNamespaceName(key) ==>
      ValidId(ResourceIdOf(key)) && key == NamespaceName(SubsystemIdOf(key), ResourceIdOf(key))
  {
    JoinSplit(key, '/');
    var parts := Split(key, '/');
    assert parts[1] in parts;
    if IsSubsystemName(key) {
      assert parts == [SUBSYSTEMS, parts[1]];
    } else {
      assert parts[3] in parts;
      assert parts == [SUBSYSTEMS, parts[1], parts[2], parts[3]];
    }
  }

  /** Distinct resources never share a store key: building is injective on each shape and the shapes are disjoint. */
  lemma NamesAreInjective(s: string, i: string, t: string, j: string)
    requires ValidId(s) && ValidId(i) && ValidId(t) && ValidId(j)
    ensures SubsystemName(s) == SubsystemName(t) <==> s == t
    ensures ControllerName(s, i) == ControllerName(t, j) <==> s == t && i == j
    ensures NamespaceName(s, i) == NamespaceName(t, j) <==> s == t && i == j
    ensures SubsystemName(s) != ControllerName(t, j) && SubsystemName(s) != NamespaceName(t, j)
    ensures ControllerName(s, i) != NamespaceName(t, j)
  {
    SubsystemNameParses(s);
    SubsystemNameParses(t);
    ChildNameParses(s, CONTROLLERS, i);
    ChildNameParses(t, CONTROLLERS, j);
    ChildNameParses(s, NAMESPACES, i);
    ChildNameParses(t, NAMESPACES, j);
  }

  // ------------------------------------------------------------------ the names in full

  lemma SubsystemSpelledOut(s: string)
    ensures SubsystemName(s) == "nvmeSubsystems/" + s
  {
    assert "nvmeSubsystems/" == SUBSYSTEMS + ['/'];
    JoinCons(SUBSYSTEMS, [s], '/');
    assert Join([s], '/') == s;
  }

  lemma ChildSpelledOut(s: string, collection: string, id: string)
    ensures Join([SUBSYSTEMS, s, collection, id], '/') == "nvmeSubsystems/" + s + (['/'] + collection + ['/']) + id
  {
    JoinCons(SUBSYSTEMS, [s, collection, id], '/');
    JoinCons(s, [collection, id], '/');
    JoinCons(collection, [id], '/');
    assert "nvmeSubsystems/" == SUBSYSTEMS + ['/'];
    assert [SUBSYSTEMS] + [s, collection, id] == [SUBSYSTEMS, s, collection, id];
    assert [s] + [collection, id] == [s, collection, id] && [collection] + [id] == [collection, id];
    assert Join([id], '/') == id;
  }

  lemma ControllerSpelledOut(s: string, id: string)
    ensures ControllerName(s, id) == "nvmeSubsystems/" + s + "/nvmeControllers/" + id
  {
    ChildSpelledOut(s, CONTROLLERS, id);
    assert "/nvmeControllers/" == ['/'] + CONTROLLERS + ['/'];
  }

  lemma NamespaceSpelledOut(s: string, id: string)
    ensures NamespaceName(s, id) == "nvmeSubsystems/" + s + "/nvmeNamespaces/" + id
  {
    ChildSpelledOut(s, NAMESPACES, id);
    assert "/nvmeNamespaces/" == ['/'] + NAMESPACES + ['/'];
  }

  // ------------------------------------------------------------------ exact selection

  lemma ControllerNameExtendsTest(s: string, c: string)
    ensures SubsystemName(s) + "/nvmeControllers" == Join([SUBSYSTEMS, s, CONTROLLERS], '/')
    ensures SubsystemName(s) + "/nvmeControllers" <= ControllerName(s, c)
  {
    JoinSnoc([SUBSYSTEMS, s], CONTROLLERS, '/');
    assert [SUBSYSTEMS, s] + [CONTROLLERS] == [SUBSYSTEMS, s, CONTROLLERS];
    JoinSnoc([SUBSYSTEMS, s, CONTROLLERS], c, '/');
    assert [SUBSYSTEMS, s, CONTROLLERS] + [c] == [SUBSYSTEMS, s, CONTROLLERS, c];
    assert "/nvmeControllers" == ['/'] + CONTROLLERS;
    assert SubsystemName(s) + ['/'] + CONTROLLERS == SubsystemName(s) + (['/'] + CONTROLLERS);
  }

  /** Over all keys of the three shapes, the prefix test selects exactly the controllers of the subsystem:
      no namespace, no subsystem, and no controller of a subsystem whose id merely extends this one. */
  lemma PrefixTestIsExact(key: string, s: string)
    requires ValidId(s) && IsResourceName(key)
    ensures ControllerPrefixTest(key, SubsystemName(s)) <==> IsControllerName(key) && SubsystemIdOf(key) == s
  {
    var a := SubsystemName(s) + "/nvmeControllers";
    ControllerNameExtendsTest(s, ResourceIdOf(key));
    SplitJoin([SUBSYSTEMS, s, CONTROLLERS], '/');
    var parts := Split(key, '/');
    if a <= key {
      PrefixKeepsSegments(a, key, '/');
      assert Split(a, '/')[1] == parts[1];
      assert CONTROLLERS <= parts[2];
      assert !(CONTROLLERS <= NAMESPACES);
    }
    if IsControllerName(key) && SubsystemIdOf(key) == s {
      NameIsRebuilt(key);
    }
  }
}
