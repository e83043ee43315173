/** Counting code points by their first bytes, as the passes over finished text do. */
module LeadBytes {
  import opened Bytes

  /** Any byte but a UTF-8 continuation byte. */
  predicate IsLead(b: Byte) { !(0x80 <= b < 0xC0) }

  /** The code points that start in the first n bytes. */
  function Leads(t: Text, n: nat): nat
    requires n <= |t|
  {
    if n == 0 then 0 else Leads(t, n - 1) + (if IsLead(t[n - 1]) then 1 else 0)
  }

  function LeadCount(t: Text): nat { Leads(t, |t|) }

  lemma {:induction false} LeadsGrow(t: Text, m: nat, n: nat)
    requires m <= n <= |t|
    ensures Leads(t, m) <= Leads(t, n)
    ensures m < n && IsLead(t[m]) ==> Leads(t, m) < Leads(t, n)
  {
    if m < n { LeadsGrow(t, m, n - 1); }
  }

  lemma LeadsAppend(t: Text, b: Byte)
    ensures Leads(t + [b], |t| + 1) == Leads(t, |t|) + (if IsLead(b) then 1 else 0)
  {
    LeadsOfPrefix(t + [b], t, |t|);
  }

  lemma {:induction false} LeadsOfPrefix(a: Text, b: Text, n: nat)
    requires n <= |a| && n <= |b| && a[..n] == b[..n]
    ensures Leads(a, n) == Leads(b, n)
  {
    if n > 0 {
      assert a[n - 1] == a[..n][n - 1] == b[..n][n - 1] == b[n - 1];
      assert a[..n - 1] == a[..n][..n - 1] == b[..n - 1];
      LeadsOfPrefix(a, b, n - 1);
    }
  }

  lemma {:induction false} LeadsConcat(a: Text, b: Text)
    ensures LeadCount(a + b) == LeadCount(a) + LeadCount(b)
  {
    if b == [] {
      assert a + b == a;
    } else {
      var front, last := b[..|b| - 1], b[|b| - 1];
      assert b == front + [last] && a + b == (a + front) + [last];
      LeadsAppend(front, last);
      LeadsAppend(a + front, last);
      hide Leads;
      LeadsConcat(a, front);
    }
  }

  method CountLeads(t: Text) returns (count: nat)
    ensures count == LeadCount(t)
  {
    count := 0;
    for k := 0 to |t|
      invariant count == Leads(t, k)
    {
      if IsLead(t[k]) { count := count + 1; }
    }
  }

  /** Leads up to m, from there to n, and past n. */
  lemma LeadsSplit(t: Text, m: nat, n: nat)
    requires m <= n <= |t|
    ensures LeadCount(t) == Leads(t, n) + LeadCount(t[n..])
    ensures LeadCount(t[..m]) == Leads(t, m)
  {
    LeadsOfPrefix(t[..n], t, n);
    LeadsOfPrefix(t[..m], t, m);
    LeadsConcat(t[..n], t[n..]);
    hide Leads;
    assert t == t[..n] + t[n..];
  }
}
