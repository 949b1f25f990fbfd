/** Connection keys (src/kern/npf_connkey.c): their words, built and adjusted in place. */
module ConnKeys {

  /** Addresses are one word (IPv4) or four (IPv6). */
  datatype Tuple = Tuple(src: seq<bv32>, dst: seq<bv32>, sport: bv32, dport: bv32, proto: bv32)

  predicate TupleOk(t: Tuple) {
    && (|t.src| == 1 || |t.src| == 4) && |t.dst| == |t.src|
    && t.sport < 0x10000 && t.dport < 0x10000 && t.proto <= 0xff
  }

  /** Which optional elements the key includes. */
  datatype Params = Params(useInterface: bool, useDirection: bool)

  function Mirror(t: Tuple): Tuple {
    Tuple(t.dst, t.src, t.dport, t.sport, t.proto)
  }

  function WordCount(t: Tuple): bv32 {
    if |t.src| == 1 then 1 else 4
  }

  function BaseWord(words: bv32, proto: bv32): bv32 {
    (words << 28) | (proto << 20)
  }

  function WithCkey(k: bv32, ifid: bv32, di: bv32): bv32 {
    k | ifid | (di << 18)
  }

  function FirstWord(words: bv32, proto: bv32, ifid: bv32, di: bv32): bv32 {
    WithCkey(BaseWord(words, proto), ifid, di)
  }

  function SecondWord(a: bv32, b: bv32): bv32 {
    (a << 16) | b
  }

  /** Interface identifiers have 18 bits; a direction is in, out or unused. */
  predicate PlaceOk(ifid: bv32, di: bv32) {
    ifid < 0x40000 && di <= 3
  }

  function KeyOf(p: Params, t: Tuple, ifid: bv32, di: bv32): seq<bv32> {
    [FirstWord(WordCount(t), t.proto, if p.useInterface then ifid else 0, if p.useDirection then di else 0),
     SecondWord(t.sport, t.dport)] + t.src + t.dst
  }

  lemma FirstWordInjective(w: bv32, p: bv32, i: bv32, d: bv32, w': bv32, p': bv32, i': bv32, d': bv32)
    requires w <= 0xf && p <= 0xff && PlaceOk(i, d) && w' <= 0xf && p' <= 0xff && PlaceOk(i', d')
    requires FirstWord(w, p, i, d) == FirstWord(w', p', i', d')
    ensures w == w' && p == p' && i == i' && d == d'
  {
  }

  lemma SecondWordInjective(a: bv32, b: bv32, a': bv32, b': bv32)
    requires a < 0x10000 && b < 0x10000 && a' < 0x10000 && b' < 0x10000
    requires SecondWord(a, b) == SecondWord(a', b')
    ensures a == a' && b == b'
  {
  }

  /** Different connections have different keys: a key determines everything it was made from. */
  lemma KeyInjective(p: Params, t: Tuple, ifid: bv32, di: bv32, t': Tuple, ifid': bv32, di': bv32)
    requires TupleOk(t) && TupleOk(t') && PlaceOk(ifid, di) && PlaceOk(ifid', di')
    requires KeyOf(p, t, ifid, di) == KeyOf(p, t', ifid', di')
    ensures t == t' && (p.useInterface ==> ifid == ifid') && (p.useDirection ==> di == di')
  {
    hide FirstWord, SecondWord;
    var k, k' := KeyOf(p, t, ifid, di), KeyOf(p, t', ifid', di');
    assert k[0] == k'[0] && k[1] == k'[1];
    FirstWordInjective(WordCount(t), t.proto, if p.useInterface then ifid else 0, if p.useDirection then di else 0,
                       WordCount(t'), t'.proto, if p.useInterface then ifid' else 0, if p.useDirection then di' else 0);
    SecondWordInjective(t.sport, t.dport, t'.sport, t'.dport);
    var n := |t.src|;
    assert t.src == k[2..2 + n] && t.dst == k[2 + n..];
    assert t'.src == k'[2..2 + n] && t'.dst == k'[2 + n..];
  }

  // ----- building keys in place

  /** Copy words into a key. */
  method CopyWords(key: array<bv32>, at: nat, words: seq<bv32>)
    requires at + |words| <= key.Length
    modifies key
    ensures key[..] == old(key[..at]) + words + old(key[at + |words|..])
  {
    for i := 0 to |words|
      invariant key[..at] == old(key[..at]) && key[at + |words|..] == old(key[at + |words|..])
      invariant forall j :: 0 <= j < i ==> key[at + j] == words[j]
    {
      key[at + i] := words[i];
    }
    assert key[at..at + |words|] == words;
    assert key[..] == key[..at] + key[at..at + |words|] + key[at + |words|..];
  }

  /** A key without its optional elements. */
  function BareKey(t: Tuple): seq<bv32> {
    [BaseWord(WordCount(t), t.proto), SecondWord(t.sport, t.dport)] + t.src + t.dst
  }

  /** npf_connkey_setkey; the source and destination are inverted for the backwards stream. */
  method SetKey(key: array<bv32>, t: Tuple, back: bool) returns (len: nat)
    requires TupleOk(t) && key.Length >= 2 + 2 * |t.src|
    modifies key
    ensures len == 2 + 2 * |t.src| && key[..len] == BareKey(if back then Mirror(t) else t)
  {
    hide BaseWord, SecondWord;
    var a, b := if back then t.dst else t.src, if back then t.src else t.dst;
    var id0, id1 := if back then t.dport else t.sport, if back then t.sport else t.dport;
    key[0] := BaseWord(WordCount(t), t.proto);
    key[1] := SecondWord(id0, id1);
    CopyWords(key, 2, a);
    ghost var k := key[..];
    assert k[0] == BaseWord(WordCount(t), t.proto) && k[1] == SecondWord(id0, id1) && k[2..2 + |a|] == a;
    CopyWords(key, 2 + |a|, b);
    len := 2 + 2 * |a|;
    assert key[..len] == k[..2 + |a|] + b;
    assert k[..2 + |a|] == [k[0], k[1]] + a;
  }

  /** npf_connkey_setckey: or the interface and the direction into the first word. */
  method SetCkey(key: array<bv32>, ifid: bv32, di: bv32)
    requires key.Length > 0
    modifies key
    ensures key[..] == [WithCkey(old(key[0]), ifid, di)] + old(key[1..])
  {
    if ifid != 0 {
      key[0] := key[0] | ifid;
    }
    if di != 0 {
      key[0] := key[0] | (di << 18);
    }
    assert key[0] == WithCkey(old(key[0]), ifid, di) by { OrZero(old(key[0]), ifid, di); }
  }

  lemma OrZero(k: bv32, ifid: bv32, di: bv32)
    ensures ifid == 0 ==> WithCkey(k, ifid, di) == k | (di << 18)
    ensures di == 0 ==> WithCkey(k, ifid, di) == k | ifid
    ensures ifid == 0 && di == 0 ==> WithCkey(k, ifid, di) == k
  {
  }

  /** npf_conn_conkey for the protocols with ports. */
  method ConKey(key: array<bv32>, p: Params, t: Tuple, ifid: bv32, di: bv32, back: bool) returns (len: nat)
    requires TupleOk(t) && key.Length >= 2 + 2 * |t.src|
    modifies key
    ensures len == 2 + 2 * |t.src| && key[..len] == KeyOf(p, if back then Mirror(t) else t, ifid, di)
  {
    hide BaseWord, SecondWord, WithCkey;
    len := SetKey(key, t, back);
    ghost var k := key[..len];
    SetCkey(key, if p.useInterface then ifid else 0, if p.useDirection then di else 0);
    assert key[..len] == [key[0]] + k[1..];
  }

  // ----- adjusting keys

  /** A tuple with one end rewritten; port zero leaves the port alone. */
  function Rewritten(t: Tuple, dst: bool, addr: seq<bv32>, port: bv32): Tuple {
    if dst then t.(dst := addr, dport := if port != 0 then port else t.dport)
    else t.(src := addr, sport := if port != 0 then port else t.sport)
  }

  function AdjustedWord(k: bv32, id: bv32, dst: bool): bv32 {
    if dst then id | (k & 0xffff0000) else (id << 16) | (k & 0xffff)
  }

  /** npf_conn_adjkey: overwrite one address, and one port unless the new one is zero. */
  method AdjKey(key: array<bv32>, addr: seq<bv32>, id: bv32, dst: bool)
    requires key.Length >= 2 && Words(key[0]) == |addr| && key.Length >= 2 + 2 * |addr|
    modifies key
    ensures key[..] == Adjusted(old(key[..]), addr, id, dst)
  {
    hide AdjustedWord, Words, Adjusted;
    var n := Words(key[0]);
    AdjustedShape(key[..], addr, id, dst);
    CopyWords(key, if dst then 2 + n else 2, addr);
    if id != 0 {
      key[1] := AdjustedWord(key[1], id, dst);
    }
  }

  lemma AdjustedShape(k: seq<bv32>, addr: seq<bv32>, id: bv32, dst: bool)
    requires |k| >= 2 + 2 * |addr|
    ensures var at := if dst then 2 + |addr| else 2;
      var k' := k[..at] + addr + k[at + |addr|..];
      Adjusted(k, addr, id, dst) == if id != 0 then k'[1 := AdjustedWord(k'[1], id, dst)] else k'
  {
  }

  /** The address length, in words, as a key records it. */
  function Words(k: bv32): nat {
    (k >> 28) as nat
  }

  function Adjusted(k: seq<bv32>, addr: seq<bv32>, id: bv32, dst: bool): seq<bv32>
    requires |k| >= 2 + 2 * |addr|
  {
    var at := if dst then 2 + |addr| else 2;
    [k[0], if id != 0 then AdjustedWord(k[1], id, dst) else k[1]] + k[2..at] + addr + k[at + |addr|..]
  }

  /** The key of a packet records the length of its addresses. */
  lemma KeyWords(p: Params, t: Tuple, ifid: bv32, di: bv32)
    requires TupleOk(t) && PlaceOk(ifid, di)
    ensures Words(KeyOf(p, t, ifid, di)[0]) == |t.src|
  {
  }

  lemma AdjustedPorts(a: bv32, b: bv32, id: bv32)
    requires a < 0x10000 && b < 0x10000 && id < 0x10000
    ensures AdjustedWord(SecondWord(a, b), id, true) == SecondWord(a, id)
    ensures AdjustedWord(SecondWord(a, b), id, false) == SecondWord(id, b)
  {
  }

  lemma AdjustedSecond(t: Tuple, addr: seq<bv32>, id: bv32, dst: bool)
    requires TupleOk(t) && id < 0x10000
    ensures var t' := Rewritten(t, dst, addr, id);
      SecondWord(t'.sport, t'.dport)
        == if id != 0 then AdjustedWord(SecondWord(t.sport, t.dport), id, dst) else SecondWord(t.sport, t.dport)
  {
    hide SecondWord, AdjustedWord;
    AdjustedPorts(t.sport, t.dport, id);
  }

  lemma AdjustedAddresses(k0: bv32, k1: bv32, src: seq<bv32>, dst: seq<bv32>, addr: seq<bv32>, id: bv32, which: bool)
    requires |addr| == |src| == |dst|
    ensures var k := [k0, k1] + src + dst;
      Adjusted(k, addr, id, which) == [k0, if id != 0 then AdjustedWord(k1, id, which) else k1]
                                      + (if which then src else addr) + (if which then addr else dst)
  {
  }

  /** Adjusting a key gives the key of the rewritten tuple. */
  lemma AdjustedIsKey(p: Params, t: Tuple, ifid: bv32, di: bv32, addr: seq<bv32>, id: bv32, dst: bool)
    requires TupleOk(t) && |addr| == |t.src| && id < 0x10000
    ensures Adjusted(KeyOf(p, t, ifid, di), addr, id, dst) == KeyOf(p, Rewritten(t, dst, addr, id), ifid, di)
  {
    hide FirstWord, SecondWord, AdjustedWord, Adjusted;
    AdjustedSecond(t, addr, id, dst);
    AdjustedAddresses(KeyOf(p, t, ifid, di)[0], SecondWord(t.sport, t.dport), t.src, t.dst, addr, id, dst);
  }
}
