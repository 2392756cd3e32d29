/** The key layout of the bot's key-value namespace: one key `user_<id>` per
    user record and one configuration key for the tutorial video. */
module Keys {
  import opened Wrappers
  import opened JsStrings

  const UserKeyPrefix: string := "user_"
  const TutorialVideoKey: string := "config_tutorial_video_id"

  /** The key of user `id`: the template literal `user_${userId}`. */
  function UserKey(id: int): string {
    UserKeyPrefix + IntToDecimal(id)
  }

  /** The filter `name.startsWith('user_')` the admin commands apply to the
      key listing. */
  predicate IsUserKey(k: string) {
    StartsWith(k, UserKeyPrefix)
  }

  /** The broadcast's `parseInt(name.replace('user_', ''))`; `None` is `NaN`. */
  function DecodeUserKey(k: string): Option<int> {
    ParseInt(DeleteFirst(k, UserKeyPrefix))
  }

  /** Every user key passes the filter and decodes back to its id. */
  lemma {:induction false} UserKeyRoundTrip(id: int)
    ensures IsUserKey(UserKey(id))
    ensures DecodeUserKey(UserKey(id)) == Some(id)
  {
    assert UserKey(id)[..|UserKeyPrefix|] == UserKeyPrefix;
    DeleteFirstOfPrefix(UserKeyPrefix, IntToDecimal(id));
    ParseIntOfDecimal(id);
  }

  /** Distinct users have distinct keys. */
  lemma {:induction false} UserKeyInjective(a: int, b: int)
    ensures UserKey(a) == UserKey(b) <==> a == b
  {
    UserKeyRoundTrip(a);
    UserKeyRoundTrip(b);
  }

  /** The configuration key is not a user key, so no user record can land
      on it and the admin filter never counts it. */
  lemma TutorialKeyIsNotUserKey(id: int)
    ensures !IsUserKey(TutorialVideoKey)
    ensures UserKey(id) != TutorialVideoKey
  {
    assert TutorialVideoKey[0] != UserKeyPrefix[0];
    UserKeyRoundTrip(id);
  }
}
