/** Names joined by a dot, and how they are taken apart again. */
module DottedNames {
  import opened Basics

  /** strings.Cut at the first dot. */
  function Cut(s: string): Option<(string, string)>
  {
    if s == [] then None
    else if s[0] == '.' then Some(([], s[1..]))
    else match Cut(s[1..])
      case None => None
      case Some(parts) => Some(([s[0]] + parts.0, parts.1))
  }

  lemma {:induction false} CutJoined(namespace: string, name: string)
    requires '.' !in namespace
    ensures Cut(namespace + "." + name) == Some((namespace, name))
  {
    var s := namespace + "." + name;
    if namespace == [] {
      assert s == "." + name;
    } else {
      assert s[1..] == namespace[1..] + "." + name;
      CutJoined(namespace[1..], name);
      assert namespace == [namespace[0]] + namespace[1..];
    }
  }

  lemma {:induction false} CutNothing(s: string)
    ensures Cut(s).None? <==> '.' !in s
  {
    if s != [] {
      CutNothing(s[1..]);
      assert s == [s[0]] + s[1..];
    }
  }
}
