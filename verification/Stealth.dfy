/**
 `StealthAddressManager` of sthrip/stealth.py: a first-in first-out cache of generated
 addresses, an OrderedDict from wallet index to address. The wallet's answers are inputs.
 */
module Stealth {
  import opened Common

  const MAX_CACHE_SIZE := 10000

  // `tag` is the label field.
  datatype Address = Address(address: string, index: int, tag: Option<string>, createdAt: int, used: bool)

  // ---------------------------------------------------------------- the dictionary as a sequence

  predicate Has(cache: seq<Address>, index: int) {
    exists i :: 0 <= i < |cache| && cache[i].index == index
  }

  function Marked(cache: seq<Address>, index: int): (r: seq<Address>)
    ensures |r| == |cache|
  {
    seq(|cache|, i requires 0 <= i < |cache| =>
      if cache[i].index == index then cache[i].(used := true) else cache[i])
  }

  function Suffix<T>(s: seq<T>, n: nat): (r: seq<T>)
    ensures |r| == if |s| < n then |s| else n
  {
    if |s| <= n then s else s[|s| - n..]
  }

  function Unused(cache: seq<Address>): seq<Address> {
    if cache == [] then [] else (if cache[0].used then [] else [cache[0]]) + Unused(cache[1..])
  }

  /** An OrderedDict keeps the place of a key that is assigned again. */
  function Put(cache: seq<Address>, a: Address): seq<Address> {
    if Has(cache, a.index)
    then seq(|cache|, i requires 0 <= i < |cache| => if cache[i].index == a.index then a else cache[i])
    else cache + [a]
  }

  /** What the wallet is asked to call an address: label and purpose, as far as they are given. */
  function WalletLabel(tag: Option<string>, purpose: Option<string>): (r: string)
    ensures r == "" <==> (tag.None? || tag.value == "") && (purpose.None? || purpose.value == "")
  {
    var parts := (if tag.Some? && tag.value != "" then [tag.value] else [])
               + if purpose.Some? && purpose.value != "" then [purpose.value] else [];
    if |parts| == 2 then parts[0] + ":" + parts[1] else if |parts| == 1 then parts[0] else ""
  }

  // ---------------------------------------------------------------- whole runs

  // Rotation is a mark followed by a generation. Mark(None) is an address that is not ours.
  datatype Op = Generate(a: Address) | Mark(index: Option<int>)

  function Step(cache: seq<Address>, op: Op): seq<Address> {
    match op
    case Generate(a) => Put(Suffix(cache, MAX_CACHE_SIZE - 1), a)
    case Mark(None) => cache
    case Mark(Some(index)) => Marked(cache, index)
  }

  function Run(ops: seq<Op>): seq<Address> {
    if ops == [] then [] else Step(Run(ops[..|ops| - 1]), ops[|ops| - 1])
  }

  /** Everything ever generated, in order, with every mark since: nothing is evicted. */
  function Log(ops: seq<Op>): seq<Address> {
    if ops == [] then []
    else
      var before := Log(ops[..|ops| - 1]);
      match ops[|ops| - 1]
      case Generate(a) => before + [a]
      case Mark(None) => before
      case Mark(Some(index)) => Marked(before, index)
  }

  /** The wallet never hands out an index twice, and new addresses are unused. */
  ghost predicate Fresh(ops: seq<Op>) {
    && (forall i, j :: 0 <= i < j < |ops| && ops[i].Generate? && ops[j].Generate? ==> ops[i].a.index != ops[j].a.index)
    && (forall i :: 0 <= i < |ops| && ops[i].Generate? ==> !ops[i].a.used)
  }

  /** Some generation in `ops` produced this address, used or not. */
  ghost predicate GeneratedIn(ops: seq<Op>, a: Address) {
    exists i :: 0 <= i < |ops| && ops[i].Generate? && ops[i].a == a.(used := ops[i].a.used)
  }

  lemma {:induction false} LogIsGenerated(ops: seq<Op>, k: nat)
    requires k < |Log(ops)|
    ensures GeneratedIn(ops, Log(ops)[k])
  {
    var before, last := ops[..|ops| - 1], ops[|ops| - 1];
    if last.Generate? && k == |Log(before)| {
      assert ops[|ops| - 1].a == Log(ops)[k];
    } else {
      LogIsGenerated(before, k);
      var i :| 0 <= i < |before| && before[i].Generate? && before[i].a == Log(before)[k].(used := before[i].a.used);
      assert ops[i] == before[i];
    }
  }

  lemma FreshIndex(ops: seq<Op>)
    requires ops != [] && Fresh(ops) && ops[|ops| - 1].Generate?
    ensures !Has(Log(ops[..|ops| - 1]), ops[|ops| - 1].a.index)
  {
    var before := ops[..|ops| - 1];
    forall k | 0 <= k < |Log(before)| ensures Log(before)[k].index != ops[|ops| - 1].a.index {
      LogIsGenerated(before, k);
      var i :| 0 <= i < |before| && before[i].Generate? && before[i].a == Log(before)[k].(used := before[i].a.used);
      assert ops[i] == before[i];
    }
  }

  lemma LastOfLast(log: seq<Address>, a: Address)
    requires !Has(log, a.index)
    ensures Put(Suffix(Suffix(log, MAX_CACHE_SIZE), MAX_CACHE_SIZE - 1), a) == Suffix(log + [a], MAX_CACHE_SIZE)
  {
    var kept := Suffix(Suffix(log, MAX_CACHE_SIZE), MAX_CACHE_SIZE - 1);
    assert kept == Suffix(log, MAX_CACHE_SIZE - 1);
    forall i | 0 <= i < |kept| ensures kept[i].index != a.index {
      assert kept[i] in log;
    }
  }

  /** With fresh indices the cache is always the last ten thousand addresses of the log. */
  lemma {:induction false} CacheIsEndOfLog(ops: seq<Op>)
    requires Fresh(ops)
    ensures Run(ops) == Suffix(Log(ops), 10000)
  {
    if ops != [] {
      var before, last := ops[..|ops| - 1], ops[|ops| - 1];
      CacheIsEndOfLog(before);
      match last {
        case Generate(a) =>
          FreshIndex(ops);
          LastOfLast(Log(before), a);
        case Mark(None) =>
        case Mark(Some(index)) =>
          assert Marked(Suffix(Log(before), MAX_CACHE_SIZE), index)
              == Suffix(Marked(Log(before), index), MAX_CACHE_SIZE);
      }
    }
  }

  ghost predicate MarkedAfter(ops: seq<Op>, i: nat, index: int) {
    exists j :: i < j < |ops| && ops[j] == Mark(Some(index))
  }

  /** Where in the run the addresses of the log were generated, in order. */
  function Positions(ops: seq<Op>): (ps: seq<nat>)
    ensures forall k :: 0 <= k < |ps| ==> ps[k] < |ops| && ops[ps[k]].Generate?
    ensures |ps| == |Log(ops)|
  {
    if ops == [] then []
    else
      var before := ops[..|ops| - 1];
      assert forall i :: 0 <= i < |before| ==> before[i] == ops[i];
      if ops[|ops| - 1].Generate? then Positions(before) + [|ops| - 1] else Positions(before)
  }

  lemma MarkedAfterStep(ops: seq<Op>, i: nat, index: int)
    requires i < |ops| - 1
    ensures MarkedAfter(ops, i, index)
        <==> MarkedAfter(ops[..|ops| - 1], i, index) || ops[|ops| - 1] == Mark(Some(index))
  {
    var before := ops[..|ops| - 1];
    if MarkedAfter(before, i, index) {
      var j :| i < j < |before| && before[j] == Mark(Some(index));
      assert ops[j] == before[j];
    }
    if MarkedAfter(ops, i, index) {
      var j :| i < j < |ops| && ops[j] == Mark(Some(index));
      if j < |before| { assert before[j] == ops[j]; }
    }
  }

  /** An address of the log is used exactly when it was marked after it was generated. */
  lemma {:induction false} UsedExactly(ops: seq<Op>, k: nat)
    requires Fresh(ops) && k < |Log(ops)|
    ensures var i := Positions(ops)[k];
      Log(ops)[k] == ops[i].a.(used := MarkedAfter(ops, i, ops[i].a.index))
  {
    var before, last := ops[..|ops| - 1], ops[|ops| - 1];
    if !(last.Generate? && k == |Log(before)|) {
      UsedExactly(before, k);
      var i := Positions(before)[k];
      assert before[i] == ops[i];
      MarkedAfterStep(ops, i, ops[i].a.index);
    }
  }

  /** The addresses generated at these positions and not marked since. */
  ghost function Unmarked(ops: seq<Op>, ps: seq<nat>): seq<Address>
    requires forall k :: 0 <= k < |ps| ==> ps[k] < |ops| && ops[ps[k]].Generate?
  {
    if ps == [] then []
    else (if MarkedAfter(ops, ps[0], ops[ps[0]].a.index) then [] else [ops[ps[0]].a]) + Unmarked(ops, ps[1..])
  }

  lemma {:induction false} UnusedAreUnmarked(ops: seq<Op>, log: seq<Address>, ps: seq<nat>)
    requires |log| == |ps| && Fresh(ops)
    requires forall k :: 0 <= k < |ps| ==> ps[k] < |ops| && ops[ps[k]].Generate?
    requires forall k :: 0 <= k < |ps| ==>
      log[k] == ops[ps[k]].a.(used := MarkedAfter(ops, ps[k], ops[ps[k]].a.index))
    ensures Unused(log) == Unmarked(ops, ps)
  {
    if log != [] { UnusedAreUnmarked(ops, log[1..], ps[1..]); }
  }

  /**
   Over every run with fresh indices, the unused addresses are those of the last ten thousand
   generated that were not marked after their generation, in order of generation.
   */
  lemma UnusedExactly(ops: seq<Op>)
    requires Fresh(ops)
    ensures Unused(Run(ops)) == Unmarked(ops, Suffix(Positions(ops), 10000))
  {
    CacheIsEndOfLog(ops);
    var log, ps := Log(ops), Positions(ops);
    var skipped := if |log| <= MAX_CACHE_SIZE then 0 else |log| - MAX_CACHE_SIZE;
    forall k | 0 <= k < |log| - skipped
      ensures Suffix(log, MAX_CACHE_SIZE)[k] == log[skipped + k] && Suffix(ps, MAX_CACHE_SIZE)[k] == ps[skipped + k]
      ensures log[skipped + k]
           == ops[ps[skipped + k]].a.(used := MarkedAfter(ops, ps[skipped + k], ops[ps[skipped + k]].a.index))
    {
      UsedExactly(ops, skipped + k);
    }
    UnusedAreUnmarked(ops, Suffix(log, MAX_CACHE_SIZE), Suffix(ps, MAX_CACHE_SIZE));
  }

  // ---------------------------------------------------------------- the program

  class StealthAddressManager {
    var order: seq<int>            // keys in insertion order
    var entries: map<int, Address>

    ghost predicate Valid()
      reads this
    {
      && |order| <= MAX_CACHE_SIZE
      && (forall i, j :: 0 <= i < j < |order| ==> order[i] != order[j])
      && (forall i :: 0 <= i < |order| ==> order[i] in entries)
      && (forall k :: k in entries ==> k in order && entries[k].index == k)
    }

    function Cache(): (r: seq<Address>)
      requires Valid()
      reads this
      ensures |r| == |order|
    {
      seq(|order|, i requires 0 <= i < |order| && Valid() reads this => entries[order[i]])
    }

    constructor ()
      ensures Valid() && Cache() == Run([])
    {
      order, entries := [], map[];
    }

    lemma KeysAreIndices()
      requires Valid()
      ensures forall i :: 0 <= i < |order| ==> Cache()[i].index == order[i]
    {
    }

    method PopOldest()
      requires Valid() && order != []
      modifies this
      ensures Valid() && Cache() == old(Cache())[1..]
    {
      var oldest := order[0];
      order := order[1..];
      entries := entries - {oldest};
    }

    /** The eviction loop. */
    method MakeRoom()
      requires Valid()
      modifies this
      ensures Valid() && Cache() == Suffix(old(Cache()), MAX_CACHE_SIZE - 1)
    {
      while |order| >= MAX_CACHE_SIZE
        invariant Valid()
        invariant Cache() == old(Cache()) || (|old(Cache())| == MAX_CACHE_SIZE && Cache() == old(Cache())[1..])
        decreases |order|
      {
        PopOldest();
      }
    }

    lemma HasExactly(index: int)
      requires Valid()
      ensures Has(Cache(), index) <==> index in entries
    {
      KeysAreIndices();
      if index in entries {
        var i :| 0 <= i < |order| && order[i] == index;
        assert Cache()[i].index == index;
      }
    }

    /** Assignment to a key of the dictionary. */
    method Store(stealth: Address)
      requires Valid() && |order| < MAX_CACHE_SIZE
      modifies this
      ensures Valid() && Cache() == Put(old(Cache()), stealth)
    {
      HasExactly(stealth.index);
      KeysAreIndices();
      if stealth.index !in entries {
        order := order + [stealth.index];
      }
      entries := entries[stealth.index := stealth];
      assert Cache() == Put(old(Cache()), stealth);
    }

    /** The wallet answered with `address` and `index` when asked for an address labelled `asked`. */
    method Generate(tag: Option<string>, purpose: Option<string>, address: string, index: int, now: int)
      returns (stealth: Address, asked: string)
      requires Valid()
      modifies this
      ensures Valid() && stealth == Address(address, index, tag, now, false) && asked == WalletLabel(tag, purpose)
      ensures Cache() == Step(old(Cache()), Op.Generate(stealth))
    {
      asked := if tag.Some? then tag.value else "";
      if purpose.Some? && purpose.value != "" {
        asked := if asked != "" then asked + ":" + purpose.value else purpose.value;
      }
      stealth := Address(address, index, tag, now, false);
      MakeRoom();
      Store(stealth);
    }

    /** `found` is the index the wallet knows the address under, if any. */
    method MarkUsed(found: Option<int>)
      requires Valid()
      modifies this
      ensures Valid() && Cache() == Step(old(Cache()), Mark(found))
    {
      KeysAreIndices();
      if found.Some? && found.value in entries {
        entries := entries[found.value := entries[found.value].(used := true)];
      }
    }

    method GetUnused() returns (r: seq<Address>)
      requires Valid()
      ensures r == Unused(Cache())
    {
      r := [];
      assert Cache()[0..] == Cache();
      for i := 0 to |order|
        invariant r + Unused(Cache()[i..]) == Unused(Cache())
      {
        assert Cache()[i..] == [Cache()[i]] + Cache()[i + 1..];
        if !entries[order[i]].used {
          r := r + [entries[order[i]]];
        }
      }
    }

    /** The new address has no label of its own: the purpose only goes to the wallet. */
    method Rotate(found: Option<int>, purpose: Option<string>, address: string, index: int, now: int)
      returns (stealth: Address, asked: string)
      requires Valid()
      modifies this
      ensures Valid() && stealth == Address(address, index, None, now, false)
      ensures asked == if purpose.Some? && purpose.value != "" then purpose.value else "rotated"
      ensures Cache() == Step(Step(old(Cache()), Mark(found)), Op.Generate(stealth))
    {
      MarkUsed(found);
      var reason := if purpose.Some? && purpose.value != "" then purpose else Some("rotated");
      stealth, asked := Generate(None, reason, address, index, now);
    }
  }
}
