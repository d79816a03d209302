/**
 The shared counter store: one atomic script leases tokens from the counter of a
 (key, window) pair and refreshes the counter's expiry, but only when it grants something.
 */
module ClaimStore {
  import opened LeaseMath

  /** A rate-limited key in one window: the identity of a shared counter. */
  datatype Slot = Slot(key: string, window: u64)

  datatype Counter = Counter(count: nat, expireAt: nat)

  type Store = map<Slot, Counter>

  /** The stored count, whether or not the counter has expired. */
  function Count(store: Store, slot: Slot): nat
  {
    if slot in store then store[slot].count else 0
  }

  predicate Expired(store: Store, slot: Slot, clock: nat)
  {
    slot in store && store[slot].expireAt < clock
  }

  /** What the script reads: an expired or missing counter reads as zero. */
  function Current(store: Store, slot: Slot, clock: nat): nat
  {
    if Expired(store, slot, clock) then 0 else Count(store, slot)
  }

  function Grant(current: nat, plan: Plan): nat
  {
    if current >= plan.budget then 0 else Min(plan.budget - current, plan.want)
  }

  /** The script's effect; a zero grant writes nothing, so it does not extend the expiry. */
  function Claim(store: Store, slot: Slot, plan: Plan, clock: nat): (r: (Store, nat))
    ensures r.1 <= plan.want
    ensures Current(r.0, slot, clock) == Current(store, slot, clock) + r.1
    ensures Current(r.0, slot, clock) <= Max(Current(store, slot, clock), plan.budget)
    ensures r.1 < plan.want ==> plan.budget <= Current(r.0, slot, clock)
    ensures forall other :: other != slot ==> Count(r.0, other) == Count(store, other)
  {
    var current := Current(store, slot, clock);
    var grant := Grant(current, plan);
    if grant == 0 then (store, 0)
    else (store[slot := Counter(current + grant, clock + plan.ttlMs)], grant)
  }

  // ---------- Counter names ----------

  function Decimal(n: nat): (s: string)
    ensures |s| > 0 && forall i :: 0 <= i < |s| ==> '0' <= s[i] <= '9'
  {
    var digit := [('0' as int + n % 10) as char];
    if n < 10 then digit else Decimal(n / 10) + digit
  }

  /** The number a decimal numeral stands for. */
  function Value(s: string): int
  {
    if s == [] then 0 else 10 * Value(s[..|s| - 1]) + (s[|s| - 1] as int - '0' as int)
  }

  lemma {:induction false} DecimalReadsBack(n: nat)
    ensures Value(Decimal(n)) == n
  {
    var s := Decimal(n);
    assert s[|s| - 1] == ('0' as int + n % 10) as char;
    if n >= 10 {
      assert s[..|s| - 1] == Decimal(n / 10);
      DecimalReadsBack(n / 10);
    } else {
      assert s[..|s| - 1] == [];
    }
  }

  const PREFIX := "traffic:lease:{"

  function WindowKey(slot: Slot): string
  {
    PREFIX + slot.key + "}:" + Decimal(slot.window)
  }

  /** A name ends in its only stretch of digits after the last colon. */
  lemma DigitsAfterColon(p: string, d: string, q: string, e: string)
    requires p + ":" + d == q + ":" + e
    requires forall i :: 0 <= i < |d| ==> d[i] != ':'
    requires forall i :: 0 <= i < |e| ==> e[i] != ':'
    ensures p == q && d == e
  {
    var s := p + ":" + d;
    assert s[|p|] == ':' && s[|q|] == ':';
    assert |p| == |q|;
    assert p == s[..|p|] && q == s[..|q|] && d == s[|p| + 1..] && e == s[|q| + 1..];
  }

  /** Two slots never share a counter name, whatever characters the keys contain. */
  lemma WindowKeyInjective(a: Slot, b: Slot)
    requires WindowKey(a) == WindowKey(b)
    ensures a == b
  {
    var da, db := Decimal(a.window), Decimal(b.window);
    var pa, pb := PREFIX + a.key + "}", PREFIX + b.key + "}";
    assert WindowKey(a) == pa + ":" + da && WindowKey(b) == pb + ":" + db;
    DigitsAfterColon(pa, da, pb, db);
    DecimalReadsBack(a.window);
    DecimalReadsBack(b.window);
    assert a.key == pa[|PREFIX|..|pa| - 1] && b.key == pb[|PREFIX|..|pb| - 1];
  }

  // ---------- Where counters live ----------

  function Find(s: string, c: char): (i: nat)
    ensures i <= |s| && (i < |s| ==> s[i] == c) && forall j :: 0 <= j < i ==> s[j] != c
  {
    if s == [] || s[0] == c then 0 else Find(s[1..], c) + 1
  }

  /** The part of a name that decides its cluster slot, by the hash-tag rule of the Redis Cluster specification. */
  function HashedPart(name: string): string
  {
    var i := Find(name, '{');
    if i == |name| then name
    else
      var tail := name[i + 1..];
      var j := Find(tail, '}');
      if j == 0 || j == |tail| then name else tail[..j]
  }

  lemma FindAt(s: string, c: char, i: nat)
    requires i < |s| && s[i] == c && forall j :: 0 <= j < i ==> s[j] != c
    ensures Find(s, c) == i
  {
  }

  /** The name's tag is the key up to its first closing brace; without one, the whole name is hashed. */
  lemma TagOfName(slot: Slot)
    ensures var n := Find(slot.key, '}');
            HashedPart(WindowKey(slot)) == if n == 0 then WindowKey(slot) else slot.key[..n]
  {
    var name, tail, n := WindowKey(slot), slot.key + "}:" + Decimal(slot.window), Find(slot.key, '}');
    assert PREFIX[|PREFIX| - 1] == '{' && name[|PREFIX|..] == tail && name[..|PREFIX|] == PREFIX;
    FindAt(name, '{', |PREFIX| - 1);
    assert tail[n] == '}';
    FindAt(tail, '}', n);
    assert tail[..n] == slot.key[..n];
  }

  /** The windows of a key share a cluster slot exactly if the key is not empty and does not begin with `}`. */
  lemma ColocatedExactlyWhen(key: string, v: u64, w: u64)
    requires v != w
    ensures HashedPart(WindowKey(Slot(key, v))) == HashedPart(WindowKey(Slot(key, w))) <==> key != "" && key[0] != '}'
  {
    TagOfName(Slot(key, v));
    TagOfName(Slot(key, w));
    if WindowKey(Slot(key, v)) == WindowKey(Slot(key, w)) {
      WindowKeyInjective(Slot(key, v), Slot(key, w));
    }
  }
}
