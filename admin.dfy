/** The administrator's `/usercount` and `/broadcast` commands (index.js lines
    254-305). Both filter the namespace's key listing by the `user_` prefix;
    the broadcast decodes each id and makes one send attempt per key,
    counting successes and failures. The listing and the outcome of each
    send are inputs. */
module Admin {
  import opened Wrappers
  import opened JsStrings
  import opened Keys
  import opened UserStore
  import opened Handlers

  /** `keys.filter(k => k.name.startsWith('user_'))`: the user keys, in
      listing order. */
  function UserKeys(keys: seq<string>): (r: seq<string>)
    ensures |r| <= |keys|
    ensures forall k :: k in r <==> k in keys && IsUserKey(k)
  {
    if keys == [] then []
    else
      var rest := UserKeys(keys[..|keys| - 1]);
      var last := keys[|keys| - 1];
      assert keys == keys[..|keys| - 1] + [last];
      if IsUserKey(last) then rest + [last] else rest
  }

  /** The filter of a single key: the key itself when it is a user key. */
  lemma {:induction false} UserKeysOfOne(k: string)
    ensures UserKeys([k]) == if IsUserKey(k) then [k] else []
  {
    assert [k][..0] == [];
  }

  /** The filter distributes over concatenation, so it keeps the listing's
      order and every repetition of a user key. */
  lemma {:induction false} UserKeysAppend(a: seq<string>, b: seq<string>)
    ensures UserKeys(a + b) == UserKeys(a) + UserKeys(b)
  {
    if b == [] {
      assert a + b == a;
    } else {
      var init, last := b[..|b| - 1], b[|b| - 1];
      UserKeysAppend(a, init);
      assert (a + b)[..|a + b| - 1] == a + init;
      assert (a + b)[|a + b| - 1] == last;
    }
  }

  /** The number of `true` entries. */
  function CountTrue(s: seq<bool>): nat {
    if s == [] then 0
    else CountTrue(s[..|s| - 1]) + (if s[|s| - 1] then 1 else 0)
  }

  predicate Distinct(keys: seq<string>) {
    forall i, j :: 0 <= i < j < |keys| ==> keys[i] != keys[j]
  }

  /** A listing of the namespace: every key exactly once. */
  ghost predicate Enumerates(keys: seq<string>, kv: Namespace) {
    Distinct(keys) && forall k :: k in keys <==> k in kv
  }

  datatype CountOutcome = CountDenied | UserCount(count: nat)

  /** `/usercount`: the number of user keys in the listing, for the
      administrator only. */
  function CountUsers(fromId: int, adminId: Option<int>, listed: seq<string>): (o: CountOutcome)
    ensures o.UserCount? <==> IsAdmin(fromId, adminId)
    ensures o.UserCount? ==> o.count == |UserKeys(listed)| && o.count <= |listed|
  {
    if adminId != Some(fromId) then CountDenied else UserCount(|UserKeys(listed)|)
  }

  lemma {:induction false} UserKeysCountDistinct(keys: seq<string>)
    requires Distinct(keys)
    ensures |UserKeys(keys)| == |set k | k in keys && IsUserKey(k)|
  {
    if keys != [] {
      var init, last := keys[..|keys| - 1], keys[|keys| - 1];
      assert Distinct(init);
      UserKeysCountDistinct(init);
      var s := set k | k in init && IsUserKey(k);
      assert keys == init + [last];
      assert last !in init;
      if IsUserKey(last) {
        assert (set k | k in keys && IsUserKey(k)) == s + {last};
      } else {
        assert (set k | k in keys && IsUserKey(k)) == s;
      }
    }
  }

  /** For a listing of a well-formed namespace, the count is the number of
      user records, and the configuration key is never among the counted
      keys. */
  lemma {:induction false} UserCountIsRecordCount(kv: Namespace, listed: seq<string>)
    requires WellFormed(kv)
    requires Enumerates(listed, kv)
    ensures TutorialVideoKey !in UserKeys(listed)
    ensures |UserKeys(listed)| == |set k | k in kv && kv[k].UserEntry?|
  {
    TutorialKeyIsNotUserKey(0);
    UserKeysCountDistinct(listed);
    assert (set k | k in listed && IsUserKey(k)) == (set k | k in kv && kv[k].UserEntry?);
  }

  /** The text to broadcast: `text.replace('/broadcast', '').trim()`, or
      `None` when nothing is left, which asks for the usage message. */
  function BroadcastText(command: string): (r: Option<string>)
    ensures r.Some? <==> Trim(DeleteFirst(command, "/broadcast")) != []
    ensures r.Some? ==> r.value == Trim(DeleteFirst(command, "/broadcast")) && Trim(r.value) == r.value
  {
    var text := Trim(DeleteFirst(command, "/broadcast"));
    TrimIdempotent(DeleteFirst(command, "/broadcast"));
    if text == [] then None else Some(text)
  }

  /** The broadcast loop of index.js:283-298 over the listing `listed`:
      one attempt per user key, in order, to the id `parseInt` reads from
      the key (`None` for `NaN`); `delivered[i]` says whether the i-th
      attempt succeeded. */
  method Broadcast(listed: seq<string>, delivered: seq<bool>)
    returns (recipients: seq<Option<int>>, successCount: nat, failureCount: nat)
    requires |delivered| == |UserKeys(listed)|
    ensures |recipients| == |UserKeys(listed)|
    ensures forall i :: 0 <= i < |recipients| ==> recipients[i] == DecodeUserKey(UserKeys(listed)[i])
    ensures successCount == CountTrue(delivered)
    ensures successCount + failureCount == |UserKeys(listed)|
  {
    var userKeys := UserKeys(listed);
    recipients := [];
    successCount, failureCount := 0, 0;
    var i := 0;
    while i < |userKeys|
      invariant 0 <= i <= |userKeys|
      invariant |recipients| == i
      invariant forall j :: 0 <= j < i ==> recipients[j] == DecodeUserKey(userKeys[j])
      invariant successCount == CountTrue(delivered[..i])
      invariant successCount + failureCount == i
    {
      var userId := DecodeUserKey(userKeys[i]);
      recipients := recipients + [userId];
      assert delivered[..i + 1][..i] == delivered[..i];
      if delivered[i] {
        successCount := successCount + 1;
      } else {
        failureCount := failureCount + 1;
      }
      i := i + 1;
    }
    assert delivered[..i] == delivered;
  }

  /** Every user with a record is among the broadcast's recipients. */
  lemma {:induction false} BroadcastTriesEveryUser(kv: Namespace, listed: seq<string>, id: int)
    requires Enumerates(listed, kv)
    requires Lookup(kv, id).Some?
    ensures exists i :: 0 <= i < |UserKeys(listed)| && DecodeUserKey(UserKeys(listed)[i]) == Some(id)
  {
    var uk := UserKeys(listed);
    var key := UserKey(id);
    UserKeyRoundTrip(id);
    assert key in listed && IsUserKey(key);
    assert key in uk;
    var i :| 0 <= i < |uk| && uk[i] == key;
    assert DecodeUserKey(uk[i]) == Some(id);
  }

  /** Every recipient id of the broadcast is a user with a record. */
  lemma {:induction false} BroadcastInventsNoUser(kv: Namespace, listed: seq<string>, i: int)
    requires WellFormed(kv)
    requires Enumerates(listed, kv)
    requires 0 <= i < |UserKeys(listed)|
    ensures DecodeUserKey(UserKeys(listed)[i]).Some?
    ensures Lookup(kv, DecodeUserKey(UserKeys(listed)[i]).value).Some?
  {
    var k := UserKeys(listed)[i];
    assert k in UserKeys(listed);
    assert k in kv && IsUserKey(k);
    var owner := kv[k].user.id;
    assert UserKey(owner) == k;
    UserKeyRoundTrip(owner);
  }

  /** Over a listing of a well-formed namespace, the recipients are exactly
      the users with a record: every user is tried and no id is invented. */
  lemma {:induction false} BroadcastReachesEveryUser(kv: Namespace, listed: seq<string>, id: int)
    requires WellFormed(kv)
    requires Enumerates(listed, kv)
    ensures Lookup(kv, id).Some? <==>
            exists i :: 0 <= i < |UserKeys(listed)| && DecodeUserKey(UserKeys(listed)[i]) == Some(id)
  {
    if Lookup(kv, id).Some? {
      BroadcastTriesEveryUser(kv, listed, id);
    }
    forall i | 0 <= i < |UserKeys(listed)| && DecodeUserKey(UserKeys(listed)[i]) == Some(id)
      ensures Lookup(kv, id).Some?
    {
      BroadcastInventsNoUser(kv, listed, i);
    }
  }

  datatype BroadcastOutcome =
    | BroadcastDenied
    | BroadcastUsage
    | BroadcastDone(recipients: seq<Option<int>>, successCount: nat, failureCount: nat)

  /** `/broadcast`: administrator only; an empty message asks for usage;
      otherwise the loop runs over the listing. */
  method OnBroadcast(fromId: int, adminId: Option<int>, command: string, listed: seq<string>, delivered: seq<bool>)
    returns (o: BroadcastOutcome)
    requires |delivered| == |UserKeys(listed)|
    ensures o.BroadcastDenied? <==> !IsAdmin(fromId, adminId)
    ensures o.BroadcastUsage? <==> IsAdmin(fromId, adminId) && BroadcastText(command).None?
    ensures o.BroadcastDone? ==> |o.recipients| == |UserKeys(listed)|
    ensures o.BroadcastDone? ==>
              forall i :: 0 <= i < |o.recipients| ==> o.recipients[i] == DecodeUserKey(UserKeys(listed)[i])
    ensures o.BroadcastDone? ==> o.successCount == CountTrue(delivered)
    ensures o.BroadcastDone? ==> o.successCount + o.failureCount == |UserKeys(listed)|
  {
    if adminId != Some(fromId) {
      return BroadcastDenied;
    }
    var text := BroadcastText(command);
    if text.None? {
      return BroadcastUsage;
    }
    var recipients, successCount, failureCount := Broadcast(listed, delivered);
    o := BroadcastDone(recipients, successCount, failureCount);
  }
}
