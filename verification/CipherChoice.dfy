/**
 The server's choice of a cipher (ssl3_choose_cipher in handshake_server.cc), with groups of
 equally preferred ciphers within which the client's order decides.
 */
module CipherChoice {
  import opened Bytes

  datatype Cipher = Cipher(id: nat, minVersion: nat, maxVersion: nat, mkey: bv32, auth: bv32)

  /** What the connection allows: the version, and masks of key exchanges and authentications. */
  datatype Limits = Limits(version: nat, maskK: bv32, maskA: bv32) {
    predicate Allows(c: Cipher) {
      c.minVersion <= version <= c.maxVersion && c.mkey & maskK != 0 && c.auth & maskA != 0
    }
  }

  /** sk_SSL_CIPHER_find: the first place of a cipher in a list. */
  function IndexOf(list: seq<Cipher>, c: Cipher): (r: Option<nat>)
    ensures r.Some? ==> r.value < |list| && list[r.value] == c && c !in list[..r.value]
    ensures r.None? <==> c !in list
  {
    if list == [] then None
    else if list[0] == c then Some(0)
    else
      match IndexOf(list[1..], c)
      case None => None
      case Some(i) =>
        assert list[..i + 1] == [list[0]] + list[1..][..i];
        Some(i + 1)
  }

  /** prio[k] may be chosen. */
  predicate Acceptable(prio: seq<Cipher>, allow: seq<Cipher>, limits: Limits, k: nat)
    requires k < |prio|
  {
    limits.Allows(prio[k]) && IndexOf(allow, prio[k]).Some?
  }

  function Rank(prio: seq<Cipher>, allow: seq<Cipher>, k: nat): nat
    requires k < |prio| && IndexOf(allow, prio[k]).Some?
  {
    IndexOf(allow, prio[k]).value
  }

  /** The flag of an entry: 1 inside a group, 0 at its last entry; no flags at all is all zeros. */
  function Flag(flags: Option<seq<byte>>, k: nat): byte
    requires flags.Some? ==> k < |flags.value|
  {
    if flags.None? then 0 else flags.value[k]
  }

  ghost predicate FlagsOk(flags: Option<seq<byte>>, n: nat) {
    flags.Some? ==> |flags.value| == n && forall k :: 0 <= k < n ==> flags.value[k] == 0 || flags.value[k] == 1
  }

  /** The number of the group an entry is in: how many groups ended before it. */
  function GroupOf(flags: Option<seq<byte>>, k: nat): nat
    requires flags.Some? ==> k <= |flags.value|
  {
    if k == 0 then 0 else GroupOf(flags, k - 1) + (if Flag(flags, k - 1) == 0 then 1 else 0)
  }

  lemma {:induction false} GroupsGrow(flags: Option<seq<byte>>, j: nat, k: nat)
    requires j <= k && (flags.Some? ==> k <= |flags.value|)
    ensures GroupOf(flags, j) <= GroupOf(flags, k)
    ensures (exists i :: j <= i < k && Flag(flags, i) == 0) ==> GroupOf(flags, j) < GroupOf(flags, k)
  {
    if j < k {
      GroupsGrow(flags, j, k - 1);
    }
  }

  /** The group of entry k has a last entry. */
  ghost predicate Closed(flags: Option<seq<byte>>, n: nat, k: nat)
    requires flags.Some? ==> |flags.value| == n
  {
    exists j :: k <= j < n && Flag(flags, j) == 0
  }

  /** k comes first: its group before any other's, and within the group its place in `allow`. */
  ghost predicate Best(prio: seq<Cipher>, flags: Option<seq<byte>>, allow: seq<Cipher>, limits: Limits, k: nat)
    requires k < |prio| && FlagsOk(flags, |prio|) && Acceptable(prio, allow, limits, k)
  {
    forall j :: 0 <= j < |prio| && Acceptable(prio, allow, limits, j) ==>
      GroupOf(flags, k) < GroupOf(flags, j) ||
      (GroupOf(flags, k) == GroupOf(flags, j) && Rank(prio, allow, k) <= Rank(prio, allow, j))
  }

  /** Once a group ends, entries found in it beat everything after it. */
  lemma LaterIsWorse(flags: Option<seq<byte>>, i: nat, k: nat, j: nat)
    requires k <= i < j && (flags.Some? ==> j < |flags.value|) && Flag(flags, i) == 0
    ensures GroupOf(flags, k) < GroupOf(flags, j)
  {
    GroupsGrow(flags, k, j);
  }

  /** The version has the cipher, and both a key exchange and an authentication of it are possible. */
  ghost predicate Shared(c: Cipher, limits: Limits) {
    && c.minVersion <= limits.version && limits.version <= c.maxVersion
    && !(c.mkey & limits.maskK == 0 || c.auth & limits.maskA == 0)
  }

  /** The last entry of a list ends its group. */
  ghost predicate EveryGroupEnds(flags: Option<seq<byte>>) {
    flags.Some? && flags.value != [] ==> flags.value[|flags.value| - 1] == 0
  }

  lemma AcceptableIs(prio: seq<Cipher>, allow: seq<Cipher>, limits: Limits, k: nat)
    requires k < |prio|
    ensures Acceptable(prio, allow, limits, k) <==> prio[k] in allow && Shared(prio[k], limits)
  {
  }

  /** Where every group ends, one cipher that both sides share is enough. */
  lemma SharedIsClosed(prio: seq<Cipher>, flags: Option<seq<byte>>, allow: seq<Cipher>, limits: Limits)
    requires FlagsOk(flags, |prio|) && EveryGroupEnds(flags)
    ensures (exists c :: c in prio && c in allow && Shared(c, limits)) ==>
      exists k :: 0 <= k < |prio| && Acceptable(prio, allow, limits, k) && Closed(flags, |prio|, k)
  {
    hide Acceptable, Shared, Closed;
    if c :| c in prio && c in allow && Shared(c, limits) {
      var k :| 0 <= k < |prio| && prio[k] == c;
      AcceptableIs(prio, allow, limits, k);
      GroupsAreClosed(flags, |prio|, k);
    }
  }

  method ChooseCipher(prio: seq<Cipher>, flags: Option<seq<byte>>, allow: seq<Cipher>, limits: Limits)
    returns (r: Option<Cipher>)
    requires FlagsOk(flags, |prio|)
    ensures r.Some? ==> exists k :: 0 <= k < |prio| && Acceptable(prio, allow, limits, k) &&
                                    Best(prio, flags, allow, limits, k) && r.value == prio[k]
    ensures r.None? <==> forall k :: 0 <= k < |prio| && Acceptable(prio, allow, limits, k) ==>
                                     !Closed(flags, |prio|, k)
    ensures r.Some? ==> r.value in prio && r.value in allow && Shared(r.value, limits)
    ensures (exists c :: c in prio && c in allow && Shared(c, limits)) && EveryGroupEnds(flags) ==> r.Some?
  {
    hide IndexOf, Limits.Allows, GroupOf, Best, Closed, Shared, EveryGroupEnds;
    forall k | 0 <= k < |prio|
      ensures Acceptable(prio, allow, limits, k) <==> prio[k] in allow && Shared(prio[k], limits)
    {
      AcceptableIs(prio, allow, limits, k);
    }
    if EveryGroupEnds(flags) {
      SharedIsClosed(prio, flags, allow, limits);
    }
    // The smallest index so far found in a group, or -1.
    var groupMin: int := -1;
    ghost var found: nat := 0;
    for i := 0 to |prio|
      invariant groupMin == -1 ==> forall k :: 0 <= k < i ==> !Acceptable(prio, allow, limits, k)
      invariant groupMin != -1 ==>
        && 0 <= groupMin < |allow| && found < i
        && Acceptable(prio, allow, limits, found) && Rank(prio, allow, found) == groupMin
      invariant forall k :: 0 <= k < i && Acceptable(prio, allow, limits, k) ==>
        && groupMin != -1 && groupMin <= Rank(prio, allow, k)
        && GroupOf(flags, k) == GroupOf(flags, i)
      invariant forall k :: 0 <= k < i && Acceptable(prio, allow, limits, k) ==>
        forall j :: k <= j < i ==> Flag(flags, j) == 1
    {
      NextGroup(flags, i);
      assert forall k :: 0 <= k < i && Acceptable(prio, allow, limits, k) ==> Flag(flags, k) == 1;
      var c := prio[i];
      var cipherIndex := IndexOf(allow, c);
      if limits.Allows(c) && cipherIndex.Some? {
        if flags.Some? && flags.value[i] == 1 {
          if groupMin == -1 || groupMin > cipherIndex.value {
            groupMin, found := cipherIndex.value, i;
          }
        } else {
          var index := cipherIndex.value;
          ghost var best := i;
          if groupMin != -1 && groupMin < index {
            index, best := groupMin, found;
          }
          EndsHere(prio, flags, allow, limits, i, best);
          ClosedAt(flags, |prio|, best, i);
          return Some(allow[index]);
        }
      }
      if flags.Some? && flags.value[i] == 0 && groupMin != -1 {
        // About to leave a group in which there was a match.
        EndsHere(prio, flags, allow, limits, i, found);
        ClosedAt(flags, |prio|, found, i);
        return Some(allow[groupMin]);
      }
    }
    forall k | 0 <= k < |prio| && Acceptable(prio, allow, limits, k) ensures !Closed(flags, |prio|, k) {
      NeverClosed(flags, |prio|, k);
    }
    return None;
  }

  lemma NextGroup(flags: Option<seq<byte>>, i: nat)
    requires flags.Some? ==> i < |flags.value|
    ensures GroupOf(flags, i + 1) == GroupOf(flags, i) + (if Flag(flags, i) == 0 then 1 else 0)
  {
  }

  lemma ClosedAt(flags: Option<seq<byte>>, n: nat, k: nat, j: nat)
    requires (flags.Some? ==> |flags.value| == n) && k <= j < n && Flag(flags, j) == 0
    ensures Closed(flags, n, k)
  {
  }

  lemma NeverClosed(flags: Option<seq<byte>>, n: nat, k: nat)
    requires flags.Some? ==> |flags.value| == n
    requires forall j :: k <= j < n ==> Flag(flags, j) == 1
    ensures !Closed(flags, n, k)
  {
  }

  /** At the end of a group, the best of what was found in it is the best of all. */
  lemma EndsHere(prio: seq<Cipher>, flags: Option<seq<byte>>, allow: seq<Cipher>, limits: Limits, i: nat, best: nat)
    requires best <= i < |prio| && FlagsOk(flags, |prio|) && Flag(flags, i) == 0
    requires Acceptable(prio, allow, limits, best)
    requires forall k :: 0 <= k <= i && Acceptable(prio, allow, limits, k) ==>
      GroupOf(flags, k) == GroupOf(flags, i) && Rank(prio, allow, best) <= Rank(prio, allow, k)
    ensures Best(prio, flags, allow, limits, best)
  {
    forall j | 0 <= j < |prio| && Acceptable(prio, allow, limits, j)
      ensures GroupOf(flags, best) < GroupOf(flags, j) ||
              (GroupOf(flags, best) == GroupOf(flags, j) && Rank(prio, allow, best) <= Rank(prio, allow, j))
    {
      if j > i {
        LaterIsWorse(flags, i, best, j);
      }
    }
  }

  /** With the last flag 0, as the preference lists are built, every group is closed. */
  lemma GroupsAreClosed(flags: Option<seq<byte>>, n: nat, k: nat)
    requires FlagsOk(flags, n) && k < n
    requires flags.Some? ==> flags.value[n - 1] == 0
    ensures Closed(flags, n, k)
  {
    assert Flag(flags, n - 1) == 0;
  }

  /** Two best entries are the same cipher, so the choice is determined. */
  lemma BestIsUnique(prio: seq<Cipher>, flags: Option<seq<byte>>, allow: seq<Cipher>, limits: Limits, j: nat, k: nat)
    requires j < |prio| && k < |prio| && FlagsOk(flags, |prio|)
    requires Acceptable(prio, allow, limits, j) && Acceptable(prio, allow, limits, k)
    requires Best(prio, flags, allow, limits, j) && Best(prio, flags, allow, limits, k)
    ensures prio[j] == prio[k]
  {
    assert Rank(prio, allow, j) == Rank(prio, allow, k);
  }

  /** Without groups the server's order alone decides. */
  lemma WithoutGroups(prio: seq<Cipher>, allow: seq<Cipher>, limits: Limits, k: nat)
    requires k < |prio| && Acceptable(prio, allow, limits, k)
    ensures Best(prio, None, allow, limits, k) <==> forall j :: 0 <= j < k ==> !Acceptable(prio, allow, limits, j)
  {
    hide Acceptable;
    forall j | 0 <= j < |prio| ensures GroupOf(None, j) == j {
      SingleGroups(j);
    }
  }

  lemma {:induction false} SingleGroups(j: nat)
    ensures GroupOf(None, j) == j
  {
    if j > 0 {
      SingleGroups(j - 1);
    }
  }

  /** Within one group the client's order alone decides. */
  lemma OneGroup(prio: seq<Cipher>, flags: seq<byte>, allow: seq<Cipher>, limits: Limits, k: nat)
    requires k < |prio| == |flags| && Acceptable(prio, allow, limits, k) && FlagsOk(Some(flags), |prio|)
    requires forall j :: 0 <= j < |prio| - 1 ==> flags[j] == 1
    ensures Best(prio, Some(flags), allow, limits, k) <==>
      forall j :: 0 <= j < |prio| && Acceptable(prio, allow, limits, j) ==>
        Rank(prio, allow, k) <= Rank(prio, allow, j)
  {
    hide Acceptable, Rank;
    forall j | 0 <= j < |prio| ensures GroupOf(Some(flags), j) == 0 {
      FirstGroup(flags, j);
    }
  }

  lemma {:induction false} FirstGroup(flags: seq<byte>, j: nat)
    requires j <= |flags| && forall i :: 0 <= i < j ==> flags[i] == 1
    ensures GroupOf(Some(flags), j) == 0
  {
    if j > 0 {
      FirstGroup(flags, j - 1);
    }
  }

  /** A cipher both sides accept is not chosen in a group that does not end. */
  method UnendedGroup(c: Cipher, limits: Limits) returns (r: Option<Cipher>)
    requires limits.Allows(c)
    ensures FlagsOk(Some([1]), 1) && Acceptable([c], [c], limits, 0) && r.None?
  {
    r := ChooseCipher([c], Some([1]), [c], limits);
  }
}
