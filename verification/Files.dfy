/** Directory trees and the byte-exact comparison of one output file.

    A symbolic link to a directory is seen as that directory; every other member that is not a
    regular file is `Other`. A directory with numbered members is given by a function from the
    number to the name and one to the node, which is how workers, rounds and small files are named;
    distinct names make the directory hold each node exactly once. */
module Files {
  import opened Bytes
  import opened Chunks
  import opened Decimal

  datatype Node = File(content: seq<Byte>) | Dir(members: map<string, Node>) | Other

  const COMPARE_BLOCK: nat := 64 * 1024

  /** pwrite: a gap before `offset` reads as zeros. */
  function WriteAt(content: seq<Byte>, bytes: seq<Byte>, offset: nat): seq<Byte> {
    if bytes == [] then content
    else if offset > |content| then content + Zeros(offset - |content|) + bytes
    else content[..offset] + bytes + content[Min(offset + |bytes|, |content|)..]
  }

  /** pread */
  function ReadAt(content: seq<Byte>, count: nat, offset: nat): (r: seq<Byte>)
    ensures |r| <= count
  {
    if offset > |content| then [] else content[offset..Min(offset + count, |content|)]
  }

  /** The comparison in blocks accepts exactly the regular file with the expected bytes. */
  method VerifyFile(members: map<string, Node>, name: string, expected: seq<Byte>) returns (ok: bool)
    ensures ok <==> name in members && members[name] == File(expected)
  {
    if name !in members || !members[name].File? {
      return false;
    }
    var content := members[name].content;
    if |content| != |expected| {
      return false;
    }
    var step := Min(|expected|, COMPARE_BLOCK);
    var offset := 0;
    while offset < |expected|
      invariant offset <= |expected| && content[..offset] == expected[..offset]
    {
      var count := Min(step, |expected| - offset);
      var block := ReadAt(content, count, offset);
      if |block| != count {
        return false;
      }
      if block != expected[offset..offset + count] {
        assert content[offset..offset + count] != expected[offset..offset + count];
        return false;
      }
      assert content[..offset + count] == content[..offset] + block;
      offset := offset + count;
    }
    ok := true;
  }

  // ----- directories with numbered members -----------------------------------------------------------------

  /** The directory with members `name(0)`, ..., `name(n - 1)`. */
  function Indexed(n: nat, name: nat -> string, node: nat -> Node): map<string, Node> {
    if n == 0 then map[] else Indexed(n - 1, name, node)[name(n - 1) := node(n - 1)]
  }

  ghost predicate Distinct(n: nat, name: nat -> string) {
    forall i: nat, j: nat :: i < n && j < n && name(i) == name(j) ==> i == j
  }

  lemma {:induction false} IndexedAt(n: nat, name: nat -> string, node: nat -> Node, i: nat)
    requires i < n && Distinct(n, name)
    ensures name(i) in Indexed(n, name, node) && Indexed(n, name, node)[name(i)] == node(i)
  {
    if i < n - 1 {
      IndexedAt(n - 1, name, node, i);
      assert name(i) != name(n - 1);
    }
  }

  lemma {:induction false} IndexedOnly(n: nat, name: nat -> string, node: nat -> Node, key: string)
    requires key in Indexed(n, name, node)
    ensures exists i: nat :: i < n && key == name(i)
  {
    if key != name(n - 1) {
      IndexedOnly(n - 1, name, node, key);
    }
  }

  lemma {:induction false} IndexedCount(n: nat, name: nat -> string, node: nat -> Node)
    requires Distinct(n, name)
    ensures |Indexed(n, name, node)| == n
  {
    if n > 0 {
      IndexedCount(n - 1, name, node);
      IndexedFree(n - 1, n, name, node);
    }
  }

  /** create_new and create_dir never meet an existing name. */
  lemma IndexedFree(i: nat, n: nat, name: nat -> string, node: nat -> Node)
    requires i < n && Distinct(n, name)
    ensures name(i) !in Indexed(i, name, node)
  {
    if name(i) in Indexed(i, name, node) {
      IndexedOnly(i, name, node, name(i));
    }
  }

  function Names(n: nat, name: nat -> string): set<string> {
    set i: nat | i < n :: name(i)
  }

  /** The first `n` members are in place. */
  predicate Holds(m: map<string, Node>, n: nat, name: nat -> string, node: nat -> Node) {
    n == 0 || (Holds(m, n - 1, name, node) && name(n - 1) in m && m[name(n - 1)] == node(n - 1))
  }

  lemma {:induction false} HoldsAt(m: map<string, Node>, n: nat, name: nat -> string, node: nat -> Node, i: nat)
    requires i < n
    ensures Holds(m, n, name, node) ==> name(i) in m && m[name(i)] == node(i)
  {
    if i < n - 1 {
      HoldsAt(m, n - 1, name, node, i);
    }
  }

  lemma {:induction false} HoldsAll(m: map<string, Node>, n: nat, name: nat -> string, node: nat -> Node)
    requires forall i: nat :: i < n ==> name(i) in m && m[name(i)] == node(i)
    ensures Holds(m, n, name, node)
  {
    if n > 0 {
      HoldsAll(m, n - 1, name, node);
    }
  }

  /** The right names with the right members are the whole directory. */
  lemma IndexedIs(m: map<string, Node>, n: nat, name: nat -> string, node: nat -> Node)
    requires Distinct(n, name)
    ensures m == Indexed(n, name, node) <==> m.Keys == Names(n, name) && Holds(m, n, name, node)
  {
    var expected := Indexed(n, name, node);
    IndexedHolds(n, name, node);
    if m.Keys == Names(n, name) && Holds(m, n, name, node) {
      forall key | key in m ensures m[key] == expected[key] {
        var i: nat :| i < n && name(i) == key;
        HoldsAt(m, n, name, node, i);
        IndexedAt(n, name, node, i);
      }
    }
  }

  lemma IndexedHolds(n: nat, name: nat -> string, node: nat -> Node)
    requires Distinct(n, name)
    ensures Indexed(n, name, node).Keys == Names(n, name) && Holds(Indexed(n, name, node), n, name, node)
  {
    var expected := Indexed(n, name, node);
    forall i: nat | i < n ensures name(i) in expected && expected[name(i)] == node(i) {
      IndexedAt(n, name, node, i);
    }
    HoldsAll(expected, n, name, node);
    forall key | key in expected ensures key in Names(n, name) {
      IndexedOnly(n, name, node, key);
    }
  }

  /** With every expected member in place, the member count decides whether there is anything else. */
  lemma IndexedDecided(m: map<string, Node>, n: nat, name: nat -> string, node: nat -> Node)
    requires Distinct(n, name) && Holds(m, n, name, node)
    ensures |m| == n <==> m == Indexed(n, name, node)
  {
    var expected := Indexed(n, name, node);
    forall key | key in expected ensures key in m && m[key] == expected[key] {
      IndexedOnly(n, name, node, key);
      var i: nat :| i < n && key == name(i);
      IndexedAt(n, name, node, i);
      HoldsAt(m, n, name, node, i);
    }
    IndexedCount(n, name, node);
    CountDecides(m, expected);
  }

  lemma CountDecides(m: map<string, Node>, expected: map<string, Node>)
    requires forall name :: name in expected ==> name in m && m[name] == expected[name]
    ensures |m| == |expected| <==> m == expected
  {
    assert expected.Keys <= m.Keys;
    assert |m.Keys| == |m| && |expected.Keys| == |expected|;
    if |m| == |expected| {
      SubsetCount(expected.Keys, m.Keys);
      assert m.Keys == expected.Keys;
    }
  }

  lemma SubsetCount<T>(a: set<T>, b: set<T>)
    requires a <= b && |a| == |b|
    ensures a == b
  {
    assert |b - a| == |b| - |a|;
    assert b == a + (b - a);
  }

  // ----- small files ---------------------------------------------------------------------------------------

  function SmallName(i: nat): string { "f" + Padded(i, 8) + ".bin" }

  lemma SmallNamesDistinct(n: nat)
    ensures Distinct(n, SmallName)
  {
    forall i: nat, j: nat | SmallName(i) == SmallName(j) ensures i == j {
      assert SmallName(i)[1..|SmallName(i)| - 4] == Padded(i, 8);
      assert SmallName(j)[1..|SmallName(j)| - 4] == Padded(j, 8);
      PaddedInjective(i, j, 8);
    }
  }

  function SmallNode(data: seq<Byte>, block: nat): nat -> Node {
    (i: nat) => File(Chunk(data, block, i))
  }

  /** The first `n` small files of a worker. */
  function SmallFiles(data: seq<Byte>, block: nat, n: nat): map<string, Node> {
    Indexed(n, SmallName, SmallNode(data, block))
  }
}
