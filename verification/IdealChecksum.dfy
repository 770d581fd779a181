/**
 The hypothesis on the checksum can be met: an injective code of log entries with values above zero.
 */
module IdealChecksum {
  import opened BuddyPositions
  import opened RedoLog
  import opened CrashRecovery

  /** A pair as one number: the power of two in it, and its odd part. */
  function Paired(a: nat, b: nat): nat {
    Pow2(a) * (2 * b + 1)
  }

  lemma PairedStep(a: nat, b: nat)
    requires a > 0
    ensures Paired(a, b) == 2 * Paired(a - 1, b)
  {
    assert Pow2(a) == 2 * Pow2(a - 1);
    Reassociate(Pow2(a - 1), 2 * b + 1);
  }

  lemma Reassociate(h: nat, k: nat)
    ensures (2 * h) * k == 2 * (h * k)
  {
  }

  lemma {:induction false} PairedInjective(a: nat, b: nat, c: nat, d: nat)
    requires Paired(a, b) == Paired(c, d)
    ensures a == c && b == d
    decreases a + c
  {
    if a > 0 {
      PairedStep(a, b);
    }
    if c > 0 {
      PairedStep(c, d);
    }
    if a == 0 || c == 0 {
      assert Pow2(0) == 1;
    } else {
      PairedInjective(a - 1, b, c - 1, d);
    }
  }

  lemma PairedPositive(a: nat, b: nat)
    ensures Paired(a, b) >= 1
  {
    Grows(Pow2(a), 2 * b + 1);
  }

  lemma Grows(h: nat, k: nat)
    requires h >= 1 && k >= 1
    ensures h * k >= 1
  {
  }

  function Code(s: seq<nat>): nat {
    if s == [] then 0 else Paired(s[0], Code(s[1..]))
  }

  lemma {:induction false} CodeInjective(s: seq<nat>, t: seq<nat>)
    requires Code(s) == Code(t)
    ensures s == t
    decreases |s|
  {
    if s != [] {
      PairedPositive(s[0], Code(s[1..]));
    }
    if t != [] {
      PairedPositive(t[0], Code(t[1..]));
    }
    if s != [] && t != [] {
      PairedInjective(s[0], Code(s[1..]), t[0], Code(t[1..]));
      CodeInjective(s[1..], t[1..]);
      assert s == [s[0]] + s[1..] && t == [t[0]] + t[1..];
    }
  }

  function EntryCode(e: Entry): nat {
    Paired(e.tp, Code(e.f))
  }

  lemma EntryCodeInjective(e: Entry, g: Entry)
    requires EntryCode(e) == EntryCode(g)
    ensures e == g
  {
    PairedInjective(e.tp, Code(e.f), g.tp, Code(g.f));
    CodeInjective(e.f, g.f);
  }

  function EntriesCode(es: seq<Entry>): (r: nat)
    ensures r >= 1
  {
    1 + Code(seq(|es|, i requires 0 <= i < |es| => EntryCode(es[i])))
  }

  lemma EntriesCodeInjective(a: seq<Entry>, b: seq<Entry>)
    requires EntriesCode(a) == EntriesCode(b)
    ensures a == b
  {
    var s := seq(|a|, i requires 0 <= i < |a| => EntryCode(a[i]));
    var t := seq(|b|, i requires 0 <= i < |b| => EntryCode(b[i]));
    CodeInjective(s, t);
    assert |a| == |s| == |t| == |b|;
    forall i | 0 <= i < |a| ensures a[i] == b[i] {
      assert s[i] == EntryCode(a[i]) && t[i] == EntryCode(b[i]);
      EntryCodeInjective(a[i], b[i]);
    }
  }

  /** So the results about crashes and recovery speak of some checksum. */
  lemma IdealExists()
    ensures exists csum: Checksum :: Ideal(csum)
  {
    var csum: Checksum := (es: seq<Entry>) => EntriesCode(es);
    forall a, b | csum(a) == csum(b) ensures a == b {
      EntriesCodeInjective(a, b);
    }
    assert Ideal(csum);
  }
}
