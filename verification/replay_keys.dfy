/** The keys replays are stored under (packages/shared/src/components/s3.ts). */
module ReplayKeys {
  import opened ArchiveDest
  import opened Decimal

  const HEAD: string := "replays/"
  const TAIL: string := ".dem.bz2"

  function ReplayObjectKey(matchId: nat, salt: nat): (key: string)
    ensures NoLeadingSlash(key) && key != ""
  {
    HEAD + (PrintNat(matchId) + ("/" + (PrintNat(matchId) + ("_" + (PrintNat(salt) + TAIL)))))
  }

  /** A key names the match twice and the salt once, in decimal. */
  lemma KeyIs(matchId: nat, salt: nat)
    ensures exists m: string, s: string ::
              && AllDigits(m) && m != "" && ParseNat(m) == matchId && AllDigits(s) && s != "" && ParseNat(s) == salt
              && ReplayObjectKey(matchId, salt) == "replays/" + m + "/" + m + "_" + s + ".dem.bz2"
  {
    PrintNatParses(matchId);
    PrintNatParses(salt);
    var m, s := PrintNat(matchId), PrintNat(salt);
    assert ReplayObjectKey(matchId, salt) == "replays/" + m + "/" + m + "_" + s + ".dem.bz2";
  }

  function Slashes(s: string): nat {
    if s == [] then 0 else Slashes(s[..|s| - 1]) + (if s[|s| - 1] == '/' then 1 else 0)
  }

  lemma {:induction false} SlashesAdd(a: string, b: string)
    ensures Slashes(a + b) == Slashes(a) + Slashes(b)
  {
    if b == [] {
      assert a + b == a;
    } else {
      SlashesAdd(a, b[..|b| - 1]);
      assert (a + b)[..|a + b| - 1] == a + b[..|b| - 1];
    }
  }

  lemma {:induction false} DigitsHaveNoSlash(s: string)
    requires AllDigits(s)
    ensures Slashes(s) == 0
  {
    if s != [] {
      DigitsHaveNoSlash(s[..|s| - 1]);
    }
  }

  lemma NumeralHasNoSlash(n: nat, rest: string)
    ensures Slashes(PrintNat(n) + rest) == Slashes(rest)
  {
    PrintNatParses(n);
    DigitsHaveNoSlash(PrintNat(n));
    SlashesAdd(PrintNat(n), rest);
  }

  /** Every replay key has as many slashes as any other. */
  lemma KeySlashes(matchId: nat, salt: nat)
    ensures Slashes(ReplayObjectKey(matchId, salt))
            == Slashes(HEAD) + Slashes("/") + Slashes("_") + Slashes(TAIL)
  {
    var last := PrintNat(salt) + TAIL;
    var name := PrintNat(matchId) + ("_" + last);
    var folder := PrintNat(matchId) + ("/" + name);
    NumeralHasNoSlash(salt, TAIL);
    SlashesAdd("_", last);
    NumeralHasNoSlash(matchId, "_" + last);
    SlashesAdd("/", name);
    NumeralHasNoSlash(matchId, "/" + name);
    SlashesAdd(HEAD, folder);
  }

  predicate NonDigitFirst(s: string) { s != "" && !IsDigit(s[0]) }

  lemma SplitAtFirstNonDigit(a: string, x: string, b: string, y: string)
    requires AllDigits(a) && AllDigits(b) && NonDigitFirst(x) && NonDigitFirst(y)
    requires a + x == b + y
    ensures a == b && x == y
  {
    var s := a + x;
    assert s[|a|] == x[0] && s[|b|] == y[0];
    assert forall i | 0 <= i < |a| :: s[i] == a[i];
    assert forall i | 0 <= i < |b| :: s[i] == b[i];
    assert a == s[..|a|] && b == s[..|b|];
    assert x == s[|a|..] && y == s[|b|..];
  }

  lemma SameNumeral(m: nat, x: string, n: nat, y: string)
    requires NonDigitFirst(x) && NonDigitFirst(y) && PrintNat(m) + x == PrintNat(n) + y
    ensures m == n && x == y
  {
    PrintNatParses(m);
    PrintNatParses(n);
    SplitAtFirstNonDigit(PrintNat(m), x, PrintNat(n), y);
  }

  lemma SamePrefixSameRest(a: string, x: string, y: string)
    requires a + x == a + y
    ensures x == y
  {
    assert (a + x)[|a|..] == x && (a + y)[|a|..] == y;
  }

  lemma KeysAreInjective(m1: nat, s1: nat, m2: nat, s2: nat)
    requires ReplayObjectKey(m1, s1) == ReplayObjectKey(m2, s2)
    ensures m1 == m2 && s1 == s2
  {
    var last1, last2 := PrintNat(s1) + TAIL, PrintNat(s2) + TAIL;
    var name1, name2 := PrintNat(m1) + ("_" + last1), PrintNat(m2) + ("_" + last2);
    SamePrefixSameRest(HEAD, PrintNat(m1) + ("/" + name1), PrintNat(m2) + ("/" + name2));
    SameNumeral(m1, "/" + name1, m2, "/" + name2);
    SamePrefixSameRest("/", name1, name2);
    SameNumeral(m1, "_" + last1, m2, "_" + last2);
    SamePrefixSameRest("_", last1, last2);
    SameNumeral(s1, TAIL, s2, TAIL);
  }

  /** Whatever the prefix, two replays never get the same place in the archive. */
  lemma ReplaysNeverCollide(prefix: string, m1: nat, s1: nat, m2: nat, s2: nat)
    requires JoinObjectPrefix(prefix, ReplayObjectKey(m1, s1)) == JoinObjectPrefix(prefix, ReplayObjectKey(m2, s2))
    ensures m1 == m2 && s1 == s2
  {
    var k1, k2 := ReplayObjectKey(m1, s1), ReplayObjectKey(m2, s2);
    NothingLeads(k1);
    NothingLeads(k2);
    KeySlashes(m1, s1);
    KeySlashes(m2, s2);
    JoinedKeysMeet(NormalizeObjectPrefix(prefix), k1, k2);
    KeysAreInjective(m1, s1, m2, s2);
  }

  lemma JoinedKeysMeet(p: string, k1: string, k2: string)
    requires JoinKey(p, k1) == JoinKey(p, k2) && Slashes(k1) == Slashes(k2)
    ensures k1 == k2
  {
    LongerBySlash(p, k1);
    LongerBySlash(p, k2);
    if p != "" && !Under(p, k1) && !Under(p, k2) {
      SamePrefixSameRest(p + "/", k1, k2);
    }
  }

  lemma LongerBySlash(p: string, k: string)
    ensures Slashes(p + "/" + k) > Slashes(k)
  {
    SlashesAdd(p + "/", k);
    assert (p + "/")[..|p|] == p;
  }
}
