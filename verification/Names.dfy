/** Resource names: '/'-separated segments, as in "nvmeSubsystems/S/nvmeNamespaces/N". */
module Names {

  predicate IsSegment(s: string) {
    '/' !in s
  }

  /** A user-settable or generated resource ID. Of the library's rules only these two are kept. */
  type ResourceId = id: string | IsSegment(id) && id != "" witness "x"

  function Join(segments: seq<string>): string
    requires |segments| > 0
  {
    if |segments| == 1 then segments[0] else segments[0] + "/" + Join(segments[1..])
  }

  function Split(name: string): (segments: seq<string>)
    ensures |segments| > 0
    ensures forall k :: 0 <= k < |segments| ==> IsSegment(segments[k])
  {
    if name == "" then [""]
    else
      var rest := Split(name[1..]);
      if name[0] == '/' then [""] + rest else [[name[0]] + rest[0]] + rest[1..]
  }

  function SubsystemName(id: string): string {
    Join(["nvmeSubsystems", id])
  }

  function ControllerName(subsystemId: string, id: string): string {
    Join(["nvmeSubsystems", subsystemId, "nvmeControllers", id])
  }

  function NamespaceName(subsystemId: string, id: string): string {
    Join(["nvmeSubsystems", subsystemId, "nvmeNamespaces", id])
  }

  function VolumeName(id: string): string {
    Join(["volumes", id])
  }

  /** The second segment; the handlers apply it to parents and to child names. */
  function GetSubsystemId(name: string): (id: string)
    ensures IsSegment(id)
  {
    var segments := Split(name);
    if |segments| > 1 then segments[1] else ""
  }

  /** The store key under which a child's handler looks for its subsystem. */
  function ParentKey(name: string): string {
    SubsystemName(GetSubsystemId(name))
  }

  function WithoutTrailingSlashes(name: string): string {
    if name != "" && name[|name| - 1] == '/' then WithoutTrailingSlashes(name[..|name| - 1]) else name
  }

  /** Go's path.Base: the last segment, trailing slashes apart. */
  function Base(name: string): string {
    var segments := Split(WithoutTrailingSlashes(name));
    if name == "" then "." else if WithoutTrailingSlashes(name) == "" then "/" else segments[|segments| - 1]
  }

  lemma {:induction false} SplitSegment(a: string, rest: string)
    requires IsSegment(a)
    ensures Split(a) == [a]
    ensures Split(a + "/" + rest) == [a] + Split(rest)
  {
    if a == "" {
      assert ("/" + rest)[1..] == rest;
      assert a + "/" + rest == "/" + rest;
    } else {
      SplitSegment(a[1..], rest);
      assert (a + "/" + rest)[1..] == a[1..] + "/" + rest;
      assert [a[0]] + a[1..] == a;
    }
  }

  /** Parsing undoes joining. */
  lemma {:induction false} SplitJoin(segments: seq<string>)
    requires |segments| > 0 && forall s :: s in segments ==> IsSegment(s)
    ensures Split(Join(segments)) == segments
  {
    if |segments| == 1 {
      SplitSegment(segments[0], "");
    } else {
      SplitSegment(segments[0], Join(segments[1..]));
      SplitJoin(segments[1..]);
    }
  }

  /** Joining undoes parsing. */
  lemma {:induction false} JoinSplit(name: string)
    ensures Join(Split(name)) == name
  {
    if name != "" {
      JoinSplit(name[1..]);
      var rest := Split(name[1..]);
      if name[0] != '/' {
        var segments := [[name[0]] + rest[0]] + rest[1..];
        assert segments[1..] == rest[1..];
      } else {
        assert ([""] + rest)[1..] == rest;
      }
    }
  }

  lemma {:induction false} SplitBehind(front: string, b: string)
    requires IsSegment(b)
    ensures Split(front + "/" + b) == Split(front) + [b]
  {
    if front == "" {
      assert front + "/" + b == "" + "/" + b;
      SplitSegment("", b);
      SplitSegment(b, "");
    } else {
      SplitBehind(front[1..], b);
      assert (front + "/" + b)[1..] == front[1..] + "/" + b;
    }
  }

  predicate IsSlashes(s: string) {
    forall i :: 0 <= i < |s| ==> s[i] == '/'
  }

  lemma {:induction false} SlashesGo(name: string, slashes: string)
    requires IsSlashes(slashes) && (name == "" || name[|name| - 1] != '/')
    ensures WithoutTrailingSlashes(name + slashes) == name
    decreases |slashes|
  {
    if slashes == "" {
      assert name + slashes == name;
    } else {
      var fewer := slashes[..|slashes| - 1];
      assert (name + slashes)[..|name + slashes| - 1] == name + fewer;
      assert (name + slashes)[|name + slashes| - 1] == slashes[|slashes| - 1];
      SlashesGo(name, fewer);
    }
  }

  /** The base of a path is its last non-empty segment, whatever slashes follow; "." and "/" stand for none. */
  lemma BaseIsLastSegment(front: string, b: string, slashes: string)
    requires IsSegment(b) && b != "" && IsSlashes(slashes)
    ensures Base(b + slashes) == b && Base(front + "/" + b + slashes) == b
    ensures Base("") == "." && (slashes != "" ==> Base(slashes) == "/")
  {
    var name := front + "/" + b;
    assert b[|b| - 1] != '/' && name[|name| - 1] == b[|b| - 1];
    SlashesGo(b, slashes);
    SlashesGo(name, slashes);
    SlashesGo("", slashes);
    assert "" + slashes == slashes;
    SplitSegment(b, "");
    SplitBehind(front, b);
  }

  // ---------------------------------------------------------------- the four forms of names

  predicate IsSubsystemName(name: string) {
    var segments := Split(name); |segments| == 2 && segments[0] == "nvmeSubsystems"
  }

  predicate IsVolumeName(name: string) {
    var segments := Split(name); |segments| == 2 && segments[0] == "volumes"
  }

  predicate IsControllerName(name: string) {
    var segments := Split(name);
    |segments| == 4 && segments[0] == "nvmeSubsystems" && segments[2] == "nvmeControllers"
  }

  predicate IsNamespaceName(name: string) {
    var segments := Split(name);
    |segments| == 4 && segments[0] == "nvmeSubsystems" && segments[2] == "nvmeNamespaces"
  }

  lemma BuiltNames(s: string, id: string)
    requires IsSegment(s) && IsSegment(id)
    ensures IsSubsystemName(SubsystemName(s)) && IsVolumeName(VolumeName(s))
    ensures IsControllerName(ControllerName(s, id)) && IsNamespaceName(NamespaceName(s, id))
  {
    SplitJoin(["nvmeSubsystems", s]);
    SplitJoin(["volumes", s]);
    SplitJoin(["nvmeSubsystems", s, "nvmeControllers", id]);
    SplitJoin(["nvmeSubsystems", s, "nvmeNamespaces", id]);
  }

  /** A name has one of the four forms exactly when it can be built in that form. */
  lemma FormsAreBuilt(name: string)
    ensures IsSubsystemName(name) <==> exists s | IsSegment(s) :: name == SubsystemName(s)
    ensures IsVolumeName(name) <==> exists s | IsSegment(s) :: name == VolumeName(s)
    ensures IsControllerName(name) <==> exists s, c | IsSegment(s) && IsSegment(c) :: name == ControllerName(s, c)
    ensures IsNamespaceName(name) <==> exists s, n | IsSegment(s) && IsSegment(n) :: name == NamespaceName(s, n)
  {
    var segments := Split(name);
    JoinSplit(name);
    forall s, id | IsSegment(s) && IsSegment(id)
      ensures IsSubsystemName(SubsystemName(s)) && IsVolumeName(VolumeName(s))
      ensures IsControllerName(ControllerName(s, id)) && IsNamespaceName(NamespaceName(s, id))
    {
      BuiltNames(s, id);
    }
    if |segments| == 2 {
      assert segments == [segments[0], segments[1]];
    } else if |segments| == 4 {
      assert segments == [segments[0], segments[1], segments[2], segments[3]];
    }
  }

  /** The four forms, spelled out. */
  lemma NamesSpelled(s: string, id: string)
    ensures SubsystemName(s) == "nvmeSubsystems/" + s
    ensures VolumeName(s) == "volumes/" + s
    ensures ControllerName(s, id) == "nvmeSubsystems/" + s + "/nvmeControllers/" + id
    ensures NamespaceName(s, id) == "nvmeSubsystems/" + s + "/nvmeNamespaces/" + id
  {
    assert Join([s]) == s && Join([id]) == id;
    JoinFour("nvmeSubsystems", s, "nvmeControllers", id);
    JoinFour("nvmeSubsystems", s, "nvmeNamespaces", id);
    assert ["nvmeSubsystems", s][1..] == [s] && ["volumes", s][1..] == [s];
    assert "/" + "nvmeControllers" + "/" == "/nvmeControllers/" && "/" + "nvmeNamespaces" + "/" == "/nvmeNamespaces/";
  }

  lemma JoinFour(a: string, b: string, c: string, d: string)
    ensures Join([a, b, c, d]) == a + "/" + b + ("/" + c + "/") + d
  {
    assert [a, b, c, d][1..] == [b, c, d] && [b, c, d][1..] == [c, d] && [c, d][1..] == [d];
    assert Join([d]) == d && Join([c, d]) == c + "/" + d && Join([b, c, d]) == b + "/" + Join([c, d]);
  }

  /** Child names lead back to the subsystem they were built from, whatever the child's ID. */
  lemma NameRoundTrip(s: string, id: string)
    requires IsSegment(s) && IsSegment(id)
    ensures ParentKey(SubsystemName(s)) == SubsystemName(s)
    ensures ParentKey(ControllerName(s, id)) == SubsystemName(s)
    ensures ParentKey(NamespaceName(s, id)) == SubsystemName(s)
    ensures GetSubsystemId(SubsystemName(s)) == s
    ensures GetSubsystemId(ControllerName(s, id)) == s
    ensures GetSubsystemId(NamespaceName(s, id)) == s
    ensures id != "" ==> Base(VolumeName(id)) == id
  {
    SplitJoin(["volumes", id]);
    SplitJoin(["nvmeSubsystems", s]);
    SplitJoin(["nvmeSubsystems", s, "nvmeControllers", id]);
    SplitJoin(["nvmeSubsystems", s, "nvmeNamespaces", id]);
  }

  /** Names of different kinds never meet, and within a kind a name determines its IDs. */
  lemma NamesAreInjective(s: string, c: string, t: string, d: string)
    requires IsSegment(s) && IsSegment(c) && IsSegment(t) && IsSegment(d)
    ensures SubsystemName(s) == SubsystemName(t) ==> s == t
    ensures VolumeName(s) == VolumeName(t) ==> s == t
    ensures ControllerName(s, c) == ControllerName(t, d) ==> s == t && c == d
    ensures NamespaceName(s, c) == NamespaceName(t, d) ==> s == t && c == d
    ensures ControllerName(s, c) != NamespaceName(t, d)
    ensures SubsystemName(s) !in {ControllerName(t, d), NamespaceName(t, d), VolumeName(t)}
    ensures VolumeName(s) !in {ControllerName(t, d), NamespaceName(t, d)}
  {
    BuiltNames(s, c);
    BuiltNames(t, d);
    SplitJoin(["nvmeSubsystems", s]);
    SplitJoin(["nvmeSubsystems", t]);
    SplitJoin(["volumes", s]);
    SplitJoin(["volumes", t]);
    SplitJoin(["nvmeSubsystems", s, "nvmeControllers", c]);
    SplitJoin(["nvmeSubsystems", t, "nvmeControllers", d]);
    SplitJoin(["nvmeSubsystems", s, "nvmeNamespaces", c]);
    SplitJoin(["nvmeSubsystems", t, "nvmeNamespaces", d]);
  }
}
