/** BehaviourHasher: the master hash over the behaviours stored on a Crownstone.
    The behaviours are sorted by their slot index on the Crownstone; each one that
    has an index contributes its index, a zero byte and its padded packet to a
    byte string, and the hash is the Fletcher-32 checksum of that string, or 0
    when it is empty.

    The behaviour parser (BehaviourDictionaryParser), the packet padding
    (getPaddedPacket) and fletcher32 are not part of this model: the padded packet
    is a field and the parser and checksum are parameters. */
module BehaviourHasher {
  import opened Bytes
  import opened Wrappers

  datatype Behaviour = Behaviour(indexOnCrownstone: Option<u8>, paddedPacket: seq<u8>)

  /** The sort comparator: "a goes before b". Only two indexed behaviours are
      ever ordered; a behaviour without an index is unordered against all. */
  predicate Before(a: Behaviour, b: Behaviour) {
    a.indexOnCrownstone.Some? && b.indexOnCrownstone.Some? &&
    a.indexOnCrownstone.value < b.indexOnCrownstone.value
  }

  predicate AllIndexed(bs: seq<Behaviour>) {
    forall i :: 0 <= i < |bs| ==> bs[i].indexOnCrownstone.Some?
  }

  /** No later behaviour goes before an earlier one. */
  predicate Sorted(bs: seq<Behaviour>) {
    forall i, j :: 0 <= i < j < |bs| ==> !Before(bs[j], bs[i])
  }

  /** Insert b before the first element it goes before. */
  function Insert(b: Behaviour, bs: seq<Behaviour>): (r: seq<Behaviour>)
    ensures multiset(r) == multiset(bs) + multiset{b}
    ensures |r| == |bs| + 1
    ensures forall x :: x in r <==> x == b || x in bs
  {
    if |bs| == 0 then [b]
    else if Before(b, bs[0]) then [b] + bs
    else
      assert bs == [bs[0]] + bs[1..];
      [bs[0]] + Insert(b, bs[1..])
  }

  /** sort(). The library calls the platform sort with the comparator above; the
      model sorts by insertion. With every index present the comparator is a
      strict weak order and every correct sort yields a sorted permutation, which
      is what is proved below; with missing indices the comparator is not a strict
      weak order and the model's order is one of the orders the platform may pick. */
  function Sort(bs: seq<Behaviour>): (r: seq<Behaviour>)
    ensures multiset(r) == multiset(bs)
    ensures |r| == |bs|
  {
    if |bs| == 0 then []
    else
      assert bs == [bs[0]] + bs[1..];
      Insert(bs[0], Sort(bs[1..]))
  }

  /** A sorted list stays sorted under a new head that nothing goes before. */
  lemma ConsSorted(x: Behaviour, s: seq<Behaviour>)
    requires Sorted(s) && forall k :: 0 <= k < |s| ==> !Before(s[k], x)
    ensures Sorted([x] + s)
  {
    var r := [x] + s;
    forall i, j | 0 <= i < j < |r|
      ensures !Before(r[j], r[i])
    {
      assert r[j] == s[j - 1];
      if i > 0 {
        assert r[i] == s[i - 1];
      }
    }
  }

  lemma {:induction false} InsertSorted(b: Behaviour, bs: seq<Behaviour>)
    requires AllIndexed(bs) && b.indexOnCrownstone.Some? && Sorted(bs)
    ensures AllIndexed(Insert(b, bs)) && Sorted(Insert(b, bs))
    decreases |bs|
  {
    if |bs| == 0 {
    } else if Before(b, bs[0]) {
      forall k | 0 <= k < |bs|
        ensures !Before(bs[k], b)
      {
        if k > 0 {
          assert !Before(bs[k], bs[0]);
        }
      }
      ConsSorted(b, bs);
    } else {
      var tail := bs[1..];
      assert Sorted(tail) by {
        forall i, j | 0 <= i < j < |tail|
          ensures !Before(tail[j], tail[i])
        {
          assert tail[i] == bs[i + 1] && tail[j] == bs[j + 1];
        }
      }
      InsertSorted(b, tail);
      var ins := Insert(b, tail);
      forall k | 0 <= k < |ins|
        ensures !Before(ins[k], bs[0])
      {
        var x := ins[k];
        assert x in ins;
        if x != b {
          var m :| 0 <= m < |tail| && tail[m] == x;
          assert bs[m + 1] == x;
        }
      }
      ConsSorted(bs[0], ins);
      assert Insert(b, bs) == [bs[0]] + ins;
    }
  }

  /** With every index present, the sorted list ascends by index. */
  lemma {:induction false} SortSorted(bs: seq<Behaviour>)
    requires AllIndexed(bs)
    ensures AllIndexed(Sort(bs)) && Sorted(Sort(bs))
    decreases |bs|
  {
    if |bs| > 0 {
      SortSorted(bs[1..]);
      InsertSorted(bs[0], Sort(bs[1..]));
    }
  }

  /** The same fact in terms of the indices themselves. */
  lemma SortAscending(bs: seq<Behaviour>)
    requires AllIndexed(bs)
    ensures var r := Sort(bs);
      AllIndexed(r) && forall i, j :: 0 <= i < j < |r| ==> r[i].indexOnCrownstone.value <= r[j].indexOnCrownstone.value
  {
    SortSorted(bs);
  }

  /** What one behaviour adds to the hash input. */
  function Contribution(b: Behaviour): seq<u8> {
    match b.indexOnCrownstone
    case None => []
    case Some(index) => [index, 0] + b.paddedPacket
  }

  /** The hash input: the contributions in list order. */
  function HashInput(bs: seq<Behaviour>): seq<u8>
    decreases |bs|
  {
    if |bs| == 0 then [] else Contribution(bs[0]) + HashInput(bs[1..])
  }

  /** Putting one behaviour in front puts its contribution in front. */
  lemma HashInputCons(b: Behaviour, bs: seq<Behaviour>)
    ensures HashInput([b] + bs) == Contribution(b) + HashInput(bs)
  {
    assert ([b] + bs)[1..] == bs;
  }

  /** The hash input of a concatenation is the concatenation of the hash inputs. */
  lemma {:induction false} HashInputAppend(a: seq<Behaviour>, b: seq<Behaviour>)
    ensures HashInput(a + b) == HashInput(a) + HashInput(b)
    decreases |a|
  {
    if |a| == 0 {
      assert a + b == b;
    } else {
      assert a + b == [a[0]] + (a[1..] + b);
      HashInputCons(a[0], a[1..] + b);
      HashInputAppend(a[1..], b);
    }
  }

  /** The behaviours that have an index, in list order. */
  function Indexed(bs: seq<Behaviour>): (r: seq<Behaviour>)
    ensures AllIndexed(r) && |r| <= |bs|
    decreases |bs|
  {
    if |bs| == 0 then []
    else if bs[0].indexOnCrownstone.Some? then [bs[0]] + Indexed(bs[1..])
    else Indexed(bs[1..])
  }

  /** A behaviour without an index contributes nothing. */
  lemma {:induction false} HashInputOfIndexed(bs: seq<Behaviour>)
    ensures HashInput(Indexed(bs)) == HashInput(bs)
    decreases |bs|
  {
    if |bs| > 0 {
      HashInputOfIndexed(bs[1..]);
      if bs[0].indexOnCrownstone.Some? {
        HashInputCons(bs[0], Indexed(bs[1..]));
      }
    }
  }

  /** The hash input is empty exactly when no behaviour has an index. */
  lemma {:induction false} HashInputEmpty(bs: seq<Behaviour>)
    ensures HashInput(bs) == [] <==> forall i :: 0 <= i < |bs| ==> bs[i].indexOnCrownstone.None?
    decreases |bs|
  {
    if |bs| > 0 {
      var tail := bs[1..];
      HashInputEmpty(tail);
      assert forall i :: 1 <= i < |bs| ==> bs[i] == tail[i - 1];
    }
  }

  /** The loop of getMasterHash(), appending each contribution in turn. */
  method BuildHashPacket(bs: seq<Behaviour>) returns (hashPacket: seq<u8>)
    ensures hashPacket == HashInput(bs)
  {
    hashPacket := [];
    var k := 0;
    while k < |bs|
      invariant 0 <= k <= |bs|
      invariant hashPacket + HashInput(bs[k..]) == HashInput(bs)
    {
      var b := bs[k];
      ghost var before := hashPacket;
      if b.indexOnCrownstone.Some? {
        // the index, a zero byte, then the padded packet
        hashPacket := hashPacket + ([b.indexOnCrownstone.value, 0] + b.paddedPacket);
      }
      assert hashPacket == before + Contribution(b);
      assert hashPacket + HashInput(bs[k + 1..]) == HashInput(bs) by {
        HashInputAt(bs, k);
        HashStep(before, Contribution(b), hashPacket, HashInput(bs[k + 1..]), HashInput(bs));
      }
      k := k + 1;
    }
    assert hashPacket == HashInput(bs) by {
      assert bs[k..] == [];
      assert hashPacket + [] == hashPacket;
    }
  }

  /** The hash input of a suffix, one behaviour at a time. */
  lemma HashInputAt(bs: seq<Behaviour>, k: nat)
    requires k < |bs|
    ensures HashInput(bs[k..]) == Contribution(bs[k]) + HashInput(bs[k + 1..])
  {
    assert bs[k..] == [bs[k]] + bs[k + 1..];
    HashInputCons(bs[k], bs[k + 1..]);
  }

  /** One pass of the loop keeps the invariant of BuildHashPacket. */
  lemma HashStep(before: seq<u8>, piece: seq<u8>, after: seq<u8>, rest: seq<u8>, whole: seq<u8>)
    requires before + (piece + rest) == whole && after == before + piece
    ensures after + rest == whole
  {
    AppendAssoc(before, piece, rest);
  }

  /** getMasterHash(): 0 when no behaviour has an index, else the checksum of
      the hash input. */
  method GetMasterHash(bs: seq<Behaviour>, fletcher32: seq<u8> -> u32) returns (hash: u32)
    ensures (forall i :: 0 <= i < |bs| ==> bs[i].indexOnCrownstone.None?) ==> hash == 0
    ensures !(forall i :: 0 <= i < |bs| ==> bs[i].indexOnCrownstone.None?) ==>
      hash == fletcher32(HashInput(bs))
  {
    var hashPacket := BuildHashPacket(bs);
    HashInputEmpty(bs);
    if |hashPacket| > 0 {
      hash := fletcher32(hashPacket);
    } else {
      hash := 0;
    }
  }

  /** The behaviours whose dictionaries parse, in order; failed parses are dropped. */
  function ParseAll<D>(dicts: seq<D>, parse: D -> Option<Behaviour>): (r: seq<Behaviour>)
    ensures |r| <= |dicts|
    ensures forall i :: 0 <= i < |dicts| && parse(dicts[i]).Some? ==> parse(dicts[i]).value in r
    ensures forall b :: b in r ==> exists i :: 0 <= i < |dicts| && parse(dicts[i]) == Some(b)
    ensures (forall i :: 0 <= i < |dicts| ==> parse(dicts[i]).Some?) ==> |r| == |dicts|
    ensures dicts == [] ==> r == []
    ensures |dicts| == 1 ==> r == (if parse(dicts[0]).Some? then [parse(dicts[0]).value] else [])
    decreases |dicts|
  {
    if |dicts| == 0 then []
    else
      var rest := ParseAll(dicts[1..], parse);
      assert forall i :: 1 <= i < |dicts| ==> dicts[i] == dicts[1..][i - 1];
      match parse(dicts[0])
      case Some(b) => [b] + rest
      case None => rest
  }

  /** Parsing keeps the order of the input: the parse of a concatenation is
      the concatenation of the parses. */
  lemma {:induction false} ParseAllAppend<D>(a: seq<D>, b: seq<D>, parse: D -> Option<Behaviour>)
    ensures ParseAll(a + b, parse) == ParseAll(a, parse) + ParseAll(b, parse)
    decreases |a|
  {
    if |a| > 0 {
      assert (a + b)[1..] == a[1..] + b;
      assert (a + b)[0] == a[0];
      ParseAllAppend(a[1..], b, parse);
    } else {
      assert a + b == b;
    }
  }

  /** init(dictArray, dayStartTimeSecondsSinceMidnight): parse, drop failures, sort.
      The day start time only reaches the parser, which is a parameter. */
  function FromDictionaries<D>(dicts: seq<D>, parse: D -> Option<Behaviour>): (r: seq<Behaviour>)
    ensures multiset(r) == multiset(ParseAll(dicts, parse))
    ensures forall b :: b in r ==> exists i :: 0 <= i < |dicts| && parse(dicts[i]) == Some(b)
    ensures forall i :: 0 <= i < |dicts| && parse(dicts[i]).Some? ==> parse(dicts[i]).value in r
  {
    var parsed := ParseAll(dicts, parse);
    var r := Sort(parsed);
    assert forall b :: b in r <==> b in multiset(parsed);
    r
  }
}
