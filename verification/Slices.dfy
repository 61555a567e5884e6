/** Small facts about slices of concatenations. */
module Slices {

  lemma First<T>(p: seq<T>, s: seq<T>)
    requires p <= s
    ensures s[0..|p|] == p
  {
  }

  lemma Last<T>(a: seq<T>, b: seq<T>)
    ensures (a + b)[|a|..|a| + |b|] == b
  {
  }

  lemma Drop<T>(a: seq<T>, b: seq<T>)
    ensures (a + b)[|a|..] == b
  {
  }

  lemma Within<T>(p: seq<T>, s: seq<T>, i: nat, j: nat)
    requires p <= s && i <= j <= |p|
    ensures s[i..j] == p[i..j]
  {
  }

  lemma DropWithin<T>(a: seq<T>, b: seq<T>, n: nat)
    requires n <= |a|
    ensures (a + b)[n..] == a[n..] + b
  {
  }

  lemma Glue<T>(s: seq<T>, i: nat, j: nat)
    requires i <= j <= |s|
    ensures s[..i] + s[i..j] == s[..j]
  {
  }

  lemma Associate<T>(a: seq<T>, b: seq<T>, c: seq<T>)
    ensures (a + b) + c == a + (b + c)
  {
  }

  lemma Rest<T>(p: seq<T>, s: seq<T>)
    requires p <= s
    ensures s == p + s[|p|..]
  {
  }

  lemma PrefixBehind<T>(a: seq<T>, p: seq<T>, q: seq<T>)
    requires p <= q
    ensures a + p <= a + q
  {
  }

  lemma Inside<T>(s: seq<T>, i: nat, j: nat, k: nat, l: nat)
    requires i <= j <= |s| && k <= l <= j - i
    ensures s[i..j][k..l] == s[i + k..i + l]
  {
    forall x | 0 <= x < l - k
      ensures s[i..j][k..l][x] == s[i + k..i + l][x]
    {
      assert s[i..j][k + x] == s[i + k + x];
    }
  }

  lemma DropBehind<T>(head: seq<T>, middle: seq<T>, rest: seq<T>, n: nat)
    requires n <= |middle|
    ensures (head + middle + rest)[|head| + n..] == middle[n..] + rest
  {
  }

  /** Two beginnings of one sequence, seen behind a third one. */
  lemma SplitBehind<T>(before: seq<T>, since: seq<T>, early: seq<T>, sent: seq<T>)
    requires before <= early <= sent && before + since <= sent
    ensures var all := before + since;
            if |early| <= |all| then since == early[|before|..] + all[|early|..] else since <= early[|before|..]
  {
    var all := before + since;
    assert since == all[|before|..];
    if |early| <= |all| {
      assert early == all[..|early|];
      assert all[|before|..] == all[|before|..|early|] + all[|early|..];
    } else {
      assert all == early[..|all|];
      assert all[|before|..] == early[|before|..|all|];
    }
  }
}
