/**
 The labels on Epinio's objects, and the keys made of a name and a namespace
 (internal/application/configurations.go, services.go).
 */
module AppKeys {
  import opened Strings
  import opened Wrappers

  const NAME_LABEL := "app.kubernetes.io/name"
  const PART_OF_LABEL := "app.kubernetes.io/part-of"
  const MANAGED_BY_LABEL := "app.kubernetes.io/managed-by"
  const COMPONENT_LABEL := "app.kubernetes.io/component"
  const AREA_LABEL := "epinio.io/area"

  const NUL := '\U{0}'

  function Encode(name: string, namespace: string): string {
    name + [NUL] + namespace
  }

  /** A key without separator makes the source panic. */
  function Decode(key: string): (string, string)
    requires NUL in key
  {
    var parts := Split(key, [NUL]);
    KeyHasTwoParts(key);
    (parts[0], parts[1])
  }

  lemma KeyHasTwoParts(key: string)
    requires NUL in key
    ensures |Split(key, [NUL])| >= 2
  {
    IndexIsFirst(key, NUL);
  }

  lemma DecodeSplits(name: string, namespace: string)
    requires NUL !in name
    ensures Decode(Encode(name, namespace)) == (name, Split(namespace, [NUL])[0])
  {
    IndexAfterPart(name, NUL, namespace);
    var key := Encode(name, namespace);
    assert key[..|name|] == name && key[|name| + 1..] == namespace;
  }

  /** A pair is recovered from its key exactly when neither name contains the separator. */
  lemma DecodeOfEncode(name: string, namespace: string)
    ensures NUL in Encode(name, namespace)
    ensures Decode(Encode(name, namespace)) == (name, namespace) <==> NUL !in name && NUL !in namespace
  {
    var key := Encode(name, namespace);
    assert key[|name|] == NUL;
    JoinOfSplit(key, NUL);
    var parts := Split(key, [NUL]);
    KeyHasTwoParts(key);
    assert parts[0] in parts && parts[1] in parts;
    if NUL !in name && NUL !in namespace {
      DecodeSplits(name, namespace);
      IndexOfAbsent(namespace, NUL);
    }
  }

  /** Keys of different pairs differ when the names before the separator do not contain it. */
  lemma EncodeInjective(n1: string, s1: string, n2: string, s2: string)
    requires NUL !in n1 && NUL !in n2 && Encode(n1, s1) == Encode(n2, s2)
    ensures n1 == n2 && s1 == s2
  {
    IndexAfterPart(n1, NUL, s1);
    IndexAfterPart(n2, NUL, s2);
    var key := Encode(n1, s1);
    assert key[..|n1|] == n1 && key[..|n2|] == n2 && key[|n1| + 1..] == s1 && key[|n2| + 1..] == s2;
  }
}
