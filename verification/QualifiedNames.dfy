/** Dotted definition names: owner before the last dot, member after it. */
module QualifiedNames {
  import opened Basics

  const JAVA_LANG_OBJECT: Name := "java.lang.Object"
  const JAVA_LANG_THROWABLE: Name := "java.lang.Throwable"

  /** Position of the last dot; -1 when there is none. */
  function LastDot(name: Name): (i: int)
    ensures -1 <= i < |name|
    ensures i >= 0 ==> name[i] == '.'
  {
    if name == "" then -1
    else if name[|name| - 1] == '.' then |name| - 1
    else LastDot(name[..|name| - 1])
  }

  function OwnerNameOf(name: Name): Name {
    var dot := LastDot(name);
    if dot < 0 then "" else name[..dot]
  }

  function MemberNameOf(name: Name): Name {
    var dot := LastDot(name);
    if dot < 0 || dot + 1 >= |name| then "" else name[dot + 1..]
  }

  function Qualify(owner: Name, member: Name): Name {
    owner + "." + member
  }

  lemma {:induction false} LastDotOfQualified(owner: Name, member: Name)
    requires '.' !in member
    ensures LastDot(Qualify(owner, member)) == |owner|
    decreases |member|
  {
    var name := Qualify(owner, member);
    if member == "" {
    } else {
      var shorter := member[..|member| - 1];
      assert name[..|name| - 1] == Qualify(owner, shorter);
      assert name[|name| - 1] == member[|member| - 1];
      LastDotOfQualified(owner, shorter);
    }
  }

  /** Taking a qualified name apart gives back its owner and its member. */
  lemma QualifyRoundTrip(owner: Name, member: Name)
    requires '.' !in member
    ensures OwnerNameOf(Qualify(owner, member)) == owner
    ensures MemberNameOf(Qualify(owner, member)) == member
  {
    LastDotOfQualified(owner, member);
  }

  lemma {:induction false} NoDotAfterLast(name: Name, i: nat)
    requires LastDot(name) < i < |name|
    ensures name[i] != '.'
    decreases |name|
  {
    if i >= |name| - 1 {
    } else {
      NoDotAfterLast(name[..|name| - 1], i);
    }
  }

  /** A name with an owner is its owner and its member put together. */
  lemma QualifiedFromParts(name: Name)
    requires OwnerNameOf(name) != ""
    ensures name == Qualify(OwnerNameOf(name), MemberNameOf(name))
    ensures '.' !in MemberNameOf(name)
  {
    var member := MemberNameOf(name);
    forall k | 0 <= k < |member|
      ensures member[k] != '.'
    {
      NoDotAfterLast(name, LastDot(name) + 1 + k);
    }
  }
}
