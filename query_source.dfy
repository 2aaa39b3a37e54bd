/** The request-body blob table of a query source: set_blob() files a
    named slice of the request body under a hash of its name, get_blob()
    finds the most recent slice filed under a name. The table is an array
    of chains; a chain's nodes are never changed once allocated, so each
    chain is modelled as the sequence of its entries, head first. */
module QuerySource {
  import opened Bytes
  import opened CLib
  import opened Wrappers
  import opened Ndb

  /** A BLOB node: the name it is filed under and the slice it points to. */
  datatype BlobNode = BlobNode(name: seq<byte>, info: LenString)

  /** The unsigned int the loop `h = 37 * h + *s` leaves after the bytes of
      s: char is signed, so a byte of 128 or more adds a negative amount,
      and the sum wraps modulo 2^32. */
  function NameHash(s: seq<byte>): (h: int)
    ensures 0 <= h < Two32
  {
    if s == [] then 0 else Uint32(37 * NameHash(s[..|s| - 1]) + SignedChar(s[|s| - 1]))
  }

  /** The bucket a name is filed under: its hash modulo the table size. */
  function Bucket(name: seq<byte>, size: nat): (i: nat)
    requires size > 0
    ensures i < size
  {
    NameHash(name) % size
  }

  /** The first entry of a chain filed under name. */
  function Lookup(chain: seq<BlobNode>, name: seq<byte>): (r: Option<LenString>)
    ensures r.Some? <==> exists k :: 0 <= k < |chain| && chain[k].name == name
    ensures r.Some? ==> exists k :: 0 <= k < |chain| && chain[k] == BlobNode(name, r.value)
  {
    if chain == [] then None
    else if chain[0].name == name then Some(chain[0].info)
    else
      var r := Lookup(chain[1..], name);
      assert forall k :: 0 <= k < |chain| - 1 ==> chain[1..][k] == chain[k + 1];
      r
  }

  /** The hash loop of set_blob() and get_blob(). */
  method HashName(name: seq<byte>, size: nat) returns (h: nat)
    requires size > 0
    ensures h == Bucket(name, size)
  {
    var acc := 0;
    var i := 0;
    while i < |name|
      invariant 0 <= i <= |name|
      invariant acc == NameHash(name[..i])
    {
      assert name[..i + 1][..i] == name[..i];
      acc := Uint32(37 * acc + SignedChar(name[i]));
      i := i + 1;
    }
    assert name[..i] == name;
    h := acc % size;
  }

  /** A filed slice shadows any earlier one of the same name in its chain,
      and leaves the lookup of any other name as it was. */
  lemma LookupPush(chain: seq<BlobNode>, b: BlobNode, name: seq<byte>)
    ensures Lookup([b] + chain, name) == if b.name == name then Some(b.info) else Lookup(chain, name)
  {
    assert ([b] + chain)[1..] == chain;
  }

  /** The chain walk of get_blob(): the first node whose name compares
      equal under strcmp(). */
  method FindInChain(chain: seq<BlobNode>, name: seq<byte>) returns (r: Option<LenString>)
    ensures r == Lookup(chain, name)
  {
    var k := 0;
    while k < |chain|
      invariant 0 <= k <= |chain|
      invariant Lookup(chain[k..], name) == Lookup(chain, name)
    {
      LookupPush(chain[k + 1..], chain[k], name);
      assert chain[k..] == [chain[k]] + chain[k + 1..];
      if Strcmp(name, chain[k].name) == 0 {
        return Some(chain[k].info);
      }
      k := k + 1;
    }
    r := None;
  }

  class BlobTable {
    const size: nat
    var table: array<seq<BlobNode>>
    /** What the table promises: the most recent slice filed under each name. */
    ghost var contents: map<seq<byte>, LenString>

    ghost predicate Valid()
      reads this, table
    {
      && size > 0 && table.Length == size
      && (forall i, k :: 0 <= i < size && 0 <= k < |table[i]| ==>
            Bucket(table[i][k].name, size) == i && table[i][k].name in contents)
      && (forall n :: n in contents ==> Lookup(table[Bucket(n, size)], n) == Some(contents[n]))
    }

    /** An empty table of size buckets. */
    constructor (size: nat)
      requires size > 0
      ensures Valid() && fresh(table) && this.size == size && contents == map[]
    {
      this.size := size;
      table := new seq<BlobNode>[size](_ => []);
      contents := map[];
    }

    /** set_blob(): push a node for name onto the head of its chain. */
    method SetBlob(name: seq<byte>, info: LenString)
      requires Valid() && NoNul(name)
      modifies this, table
      ensures Valid() && table == old(table)
      ensures contents == old(contents)[name := info]
      ensures table[Bucket(name, size)] == [BlobNode(name, info)] + old(table[Bucket(name, size)])
      ensures forall i :: 0 <= i < size && i != Bucket(name, size) ==> table[i] == old(table[i])
    {
      var h := HashName(name, size);
      ghost var before := table[..];
      table[h] := [BlobNode(name, info)] + table[h];
      contents := contents[name := info];
      forall n | n in contents
        ensures Lookup(table[Bucket(n, size)], n) == Some(contents[n])
      {
        if Bucket(n, size) == h {
          LookupPush(before[h], BlobNode(name, info), n);
        }
      }
      forall i, k | 0 <= i < size && 0 <= k < |table[i]|
        ensures Bucket(table[i][k].name, size) == i && table[i][k].name in contents
      {
        if i == h && k > 0 {
          assert table[i][k] == before[h][k - 1];
        }
      }
    }

    /** get_blob(): walk name's chain and return the first slice filed
        under it; None when the name was never filed. */
    method GetBlob(name: seq<byte>) returns (r: Option<LenString>)
      requires Valid() && NoNul(name)
      ensures r == Lookup(table[Bucket(name, size)], name)
      ensures r == if name in contents then Some(contents[name]) else None
    {
      var h := HashName(name, size);
      r := FindInChain(table[h], name);
    }
  }
}
