/** ssl3_choose_cipher (handshake_server.cc) and the rule for equal-preference groups (internal.h). */
module CipherChoice {
  import opened Basics

  datatype Cipher = Cipher(id: nat, minVersion: nat, maxVersion: nat, mkey: bv32, auth: bv32)

  /** What the handshake negotiated so far: the version, and masks of usable algorithms. */
  datatype Config = Config(version: nat, maskK: bv32, maskA: bv32)

  /** A preference list. `inGroup` says of each cipher that it is not the last of its group. */
  datatype Preference = Preference(ciphers: seq<Cipher>, inGroup: Option<seq<bool>>)

  predicate WellFormed(p: Preference) {
    p.inGroup.Some? ==> |p.inGroup.value| == |p.ciphers|
  }

  predicate InGroup(p: Preference, i: nat)
    requires WellFormed(p) && i < |p.ciphers|
  {
    p.inGroup.Some? && p.inGroup.value[i]
  }

  predicate Supported(c: Cipher, conf: Config) {
    && c.minVersion <= conf.version <= c.maxVersion
    && c.mkey & conf.maskK != 0
    && c.auth & conf.maskA != 0
  }

  /** sk_SSL_CIPHER_find: where a cipher first occurs. */
  function Find(s: seq<Cipher>, c: Cipher): (k: nat)
    requires c in s
    ensures k < |s| && s[k] == c
    ensures forall j | 0 <= j < k :: s[j] != c
  {
    if s[0] == c then 0 else 1 + Find(s[1..], c)
  }

  // ----- The rule -----

  predicate Acceptable(prio: Preference, allow: seq<Cipher>, conf: Config, i: nat)
    requires i < |prio.ciphers|
  {
    Supported(prio.ciphers[i], conf) && prio.ciphers[i] in allow
  }

  ghost predicate FirstAcceptable(prio: Preference, allow: seq<Cipher>, conf: Config, first: nat) {
    && first < |prio.ciphers|
    && Acceptable(prio, allow, conf, first)
    && forall i: nat | i < first :: !Acceptable(prio, allow, conf, i)
  }

  /** The group that holds `first` ends at `last`. */
  ghost predicate GroupEnds(prio: Preference, first: nat, last: nat)
    requires WellFormed(prio)
  {
    && first <= last < |prio.ciphers|
    && !InGroup(prio, last)
    && forall i: nat | first <= i < last :: InGroup(prio, i)
  }

  /** Among the acceptable ciphers from `first` to `end - 1`, number `k` is the one that the other
      list has earliest. */
  ghost predicate Earliest(prio: Preference, allow: seq<Cipher>, conf: Config, first: nat, end: nat, k: nat) {
    && first <= k < end <= |prio.ciphers|
    && Acceptable(prio, allow, conf, k)
    && forall i: nat | first <= i < end && Acceptable(prio, allow, conf, i) ::
         Find(allow, prio.ciphers[k]) <= Find(allow, prio.ciphers[i])
  }

  /** In the first group with an acceptable shared cipher, the one that the other list has earliest. */
  ghost predicate Chosen(prio: Preference, allow: seq<Cipher>, conf: Config, c: Cipher)
    requires WellFormed(prio)
  {
    exists first: nat, last: nat, k: nat ::
      FirstAcceptable(prio, allow, conf, first) && GroupEnds(prio, first, last)
      && Earliest(prio, allow, conf, first, last + 1, k) && c == prio.ciphers[k]
  }

  lemma GroupEndUnique(prio: Preference, first: nat, last: nat, last': nat)
    requires WellFormed(prio) && GroupEnds(prio, first, last) && GroupEnds(prio, first, last')
    ensures last == last'
  {
    assert !(last < last') && !(last' < last);
  }

  /** The rule names at most one cipher. */
  lemma ChosenUnique(prio: Preference, allow: seq<Cipher>, conf: Config, c: Cipher, c': Cipher)
    requires WellFormed(prio) && Chosen(prio, allow, conf, c) && Chosen(prio, allow, conf, c')
    ensures c == c'
  {
    var first: nat, last: nat, k: nat :|
      FirstAcceptable(prio, allow, conf, first) && GroupEnds(prio, first, last)
      && Earliest(prio, allow, conf, first, last + 1, k) && c == prio.ciphers[k];
    var first': nat, last': nat, k': nat :|
      FirstAcceptable(prio, allow, conf, first') && GroupEnds(prio, first', last')
      && Earliest(prio, allow, conf, first', last' + 1, k') && c' == prio.ciphers[k'];
    assert first == first';
    GroupEndUnique(prio, first, last, last');
    assert allow[Find(allow, c)] == c && allow[Find(allow, c')] == c';
  }

  /** Every group has an end, or the list is not in groups at all. */
  predicate Closed(prio: Preference)
    requires WellFormed(prio)
  {
    prio.inGroup.Some? && |prio.ciphers| > 0 ==> !prio.inGroup.value[|prio.ciphers| - 1]
  }

  lemma {:induction false} ClosedGroupEnds(prio: Preference, first: nat) returns (last: nat)
    requires WellFormed(prio) && Closed(prio) && first < |prio.ciphers|
    ensures GroupEnds(prio, first, last)
    decreases |prio.ciphers| - first
  {
    last := first;
    if InGroup(prio, first) {
      last := ClosedGroupEnds(prio, first + 1);
    }
  }

  ghost predicate SomeAcceptable(prio: Preference, allow: seq<Cipher>, conf: Config) {
    exists i: nat | i < |prio.ciphers| :: Acceptable(prio, allow, conf, i)
  }

  ghost predicate SomeChosen(prio: Preference, allow: seq<Cipher>, conf: Config)
    requires WellFormed(prio)
  {
    exists c :: Chosen(prio, allow, conf, c)
  }

  /** Without a closed last group: one shared cipher, which is acceptable and not the last of its group,
      and no choice. */
  lemma UnclosedGroup(c: Cipher, conf: Config)
    requires Supported(c, conf)
    ensures var prio := Preference([c], Some([true]));
            WellFormed(prio) && !Closed(prio) && SomeAcceptable(prio, [c], conf) && !SomeChosen(prio, [c], conf)
  {
    var prio := Preference([c], Some([true]));
    assert Acceptable(prio, [c], conf, 0);
    forall first: nat, last: nat
      ensures !GroupEnds(prio, first, last)
    {
      assert last < |prio.ciphers| ==> InGroup(prio, last);
    }
  }

  /** There is such a cipher. */
  lemma SomeSupported()
    ensures Supported(Cipher(0, 0, 0, 1, 1), Config(0, 1, 1))
  {
  }

  lemma FirstExists(prio: Preference, allow: seq<Cipher>, conf: Config, n: nat)
    returns (first: nat)
    requires n < |prio.ciphers| && Acceptable(prio, allow, conf, n)
    ensures FirstAcceptable(prio, allow, conf, first)
  {
    first := 0;
    while !Acceptable(prio, allow, conf, first)
      invariant first <= n
      invariant forall i: nat | i < first :: !Acceptable(prio, allow, conf, i)
      decreases n - first
    {
      first := first + 1;
    }
  }

  /** The one of the two that the other list has earlier. */
  function Earlier(prio: Preference, allow: seq<Cipher>, conf: Config, k: nat, i: nat): nat
    requires k < |prio.ciphers| && i < |prio.ciphers| && prio.ciphers[k] in allow
  {
    if Acceptable(prio, allow, conf, i) && Find(allow, prio.ciphers[i]) < Find(allow, prio.ciphers[k]) then i else k
  }

  lemma EarliestExtends(prio: Preference, allow: seq<Cipher>, conf: Config, first: nat, i: nat, k: nat)
    requires Earliest(prio, allow, conf, first, i, k) && i < |prio.ciphers|
    ensures Earliest(prio, allow, conf, first, i + 1, Earlier(prio, allow, conf, k, i))
  {
  }

  lemma {:induction false} EarliestExists(prio: Preference, allow: seq<Cipher>, conf: Config, first: nat, end: nat)
    returns (k: nat)
    requires first < end <= |prio.ciphers| && Acceptable(prio, allow, conf, first)
    ensures Earliest(prio, allow, conf, first, end, k)
    decreases end
  {
    k := first;
    if end > first + 1 {
      var k' := EarliestExists(prio, allow, conf, first, end - 1);
      EarliestExtends(prio, allow, conf, first, end - 1, k');
      k := Earlier(prio, allow, conf, k', end - 1);
    }
  }

  ghost predicate FirstGroupEnds(prio: Preference, allow: seq<Cipher>, conf: Config)
    requires WellFormed(prio)
  {
    exists first: nat, last: nat :: FirstAcceptable(prio, allow, conf, first) && GroupEnds(prio, first, last)
  }

  /** The rule names a cipher exactly when the group of the first acceptable one has an end. */
  lemma ChosenExactly(prio: Preference, allow: seq<Cipher>, conf: Config)
    requires WellFormed(prio)
    ensures SomeChosen(prio, allow, conf) <==> FirstGroupEnds(prio, allow, conf)
  {
    if FirstGroupEnds(prio, allow, conf) {
      var first: nat, last: nat :| FirstAcceptable(prio, allow, conf, first) && GroupEnds(prio, first, last);
      var k := EarliestExists(prio, allow, conf, first, last + 1);
      assert Chosen(prio, allow, conf, prio.ciphers[k]);
    }
  }

  /** When the last group is closed, that is exactly when one is acceptable. */
  lemma ChosenExists(prio: Preference, allow: seq<Cipher>, conf: Config)
    requires WellFormed(prio) && Closed(prio)
    ensures SomeChosen(prio, allow, conf) <==> SomeAcceptable(prio, allow, conf)
  {
    ChosenExactly(prio, allow, conf);
    if SomeAcceptable(prio, allow, conf) {
      var i: nat :| i < |prio.ciphers| && Acceptable(prio, allow, conf, i);
      var first := FirstExists(prio, allow, conf, i);
      var last := ClosedGroupEnds(prio, first);
      assert FirstGroupEnds(prio, allow, conf);
    }
  }

  /** A cipher that both sides list, for the version negotiated, with a key exchange and an authentication
      that can be used. */
  predicate Shared(prio: Preference, allow: seq<Cipher>, conf: Config, c: Cipher) {
    && c in prio.ciphers && c in allow
    && c.minVersion <= conf.version && conf.version <= c.maxVersion
    && c.mkey & conf.maskK != 0 && c.auth & conf.maskA != 0
  }

  ghost predicate SomeShared(prio: Preference, allow: seq<Cipher>, conf: Config) {
    exists c :: Shared(prio, allow, conf, c)
  }

  lemma AcceptableIsShared(prio: Preference, allow: seq<Cipher>, conf: Config, i: nat)
    requires i < |prio.ciphers|
    ensures Acceptable(prio, allow, conf, i) <==> Shared(prio, allow, conf, prio.ciphers[i])
  {
  }

  lemma SharedIsListed(prio: Preference, allow: seq<Cipher>, conf: Config, c: Cipher) returns (i: nat)
    requires Shared(prio, allow, conf, c)
    ensures i < |prio.ciphers| && prio.ciphers[i] == c
  {
    i :| 0 <= i < |prio.ciphers| && prio.ciphers[i] == c;
  }

  /** What is chosen is shared. */
  lemma ChosenIsShared(prio: Preference, allow: seq<Cipher>, conf: Config, c: Cipher)
    requires WellFormed(prio) && Chosen(prio, allow, conf, c)
    ensures Shared(prio, allow, conf, c)
  {
    hide Supported, Shared, Acceptable, Find, FirstAcceptable, GroupEnds;
    var first: nat, last: nat, k: nat :|
      FirstAcceptable(prio, allow, conf, first) && GroupEnds(prio, first, last)
      && Earliest(prio, allow, conf, first, last + 1, k) && c == prio.ciphers[k];
    AcceptableIsShared(prio, allow, conf, k);
  }

  /** When the last group is closed, something is chosen exactly when anything is shared. */
  lemma SharedIsChosen(prio: Preference, allow: seq<Cipher>, conf: Config)
    requires WellFormed(prio) && Closed(prio)
    ensures SomeChosen(prio, allow, conf) <==> SomeShared(prio, allow, conf)
  {
    hide Supported, Shared, Acceptable, Chosen;
    ChosenExists(prio, allow, conf);
    if SomeShared(prio, allow, conf) {
      var c :| Shared(prio, allow, conf, c);
      var i := SharedIsListed(prio, allow, conf, c);
      AcceptableIsShared(prio, allow, conf, i);
      assert Acceptable(prio, allow, conf, i);
    }
    if SomeAcceptable(prio, allow, conf) {
      var i: nat :| i < |prio.ciphers| && Acceptable(prio, allow, conf, i);
      AcceptableIsShared(prio, allow, conf, i);
    }
  }

  // ----- The code -----

  /** What the loop knows before index `i`: nothing was acceptable yet, or `i` is inside the first
      group that has something, and `groupMin` is the earliest of it. */
  ghost predicate Progress(prio: Preference, allow: seq<Cipher>, conf: Config, i: nat, groupMin: Option<nat>)
    requires WellFormed(prio)
  {
    match groupMin
    case None => i <= |prio.ciphers| && forall j: nat | j < i :: !Acceptable(prio, allow, conf, j)
    case Some(m) =>
      exists first: nat, k: nat ::
        FirstAcceptable(prio, allow, conf, first) && Inside(prio, first, i)
        && Earliest(prio, allow, conf, first, i, k) && m == Find(allow, prio.ciphers[k])
  }

  ghost predicate Inside(prio: Preference, first: nat, i: nat)
    requires WellFormed(prio)
  {
    first < i <= |prio.ciphers| && forall j: nat | first <= j < i :: InGroup(prio, j)
  }

  lemma ProgressStarts(prio: Preference, allow: seq<Cipher>, conf: Config)
    requires WellFormed(prio)
    ensures Progress(prio, allow, conf, 0, None)
  {
  }

  /** One more cipher, which is in the group and acceptable. */
  lemma ProgressFound(prio: Preference, allow: seq<Cipher>, conf: Config, i: nat, groupMin: Option<nat>, m: nat)
    requires WellFormed(prio) && i < |prio.ciphers| && Progress(prio, allow, conf, i, groupMin)
    requires Acceptable(prio, allow, conf, i) && InGroup(prio, i)
    requires var found := Find(allow, prio.ciphers[i]);
             m == if groupMin.None? || groupMin.value > found then found else groupMin.value
    ensures Progress(prio, allow, conf, i + 1, Some(m))
  {
    if groupMin.None? {
      assert FirstAcceptable(prio, allow, conf, i) && Inside(prio, i, i + 1) && Earliest(prio, allow, conf, i, i + 1, i);
    } else {
      var first: nat, k: nat :|
        FirstAcceptable(prio, allow, conf, first) && Inside(prio, first, i)
        && Earliest(prio, allow, conf, first, i, k) && groupMin.value == Find(allow, prio.ciphers[k]);
      EarliestExtends(prio, allow, conf, first, i, k);
      assert Inside(prio, first, i + 1);
    }
  }

  /** One more cipher, which is not acceptable and does not end the group that is being left. */
  lemma ProgressSkipped(prio: Preference, allow: seq<Cipher>, conf: Config, i: nat, groupMin: Option<nat>)
    requires WellFormed(prio) && i < |prio.ciphers| && Progress(prio, allow, conf, i, groupMin)
    requires !Acceptable(prio, allow, conf, i) && (groupMin.Some? ==> InGroup(prio, i))
    ensures Progress(prio, allow, conf, i + 1, groupMin)
  {
    if groupMin.Some? {
      var first: nat, k: nat :|
        FirstAcceptable(prio, allow, conf, first) && Inside(prio, first, i)
        && Earliest(prio, allow, conf, first, i, k) && groupMin.value == Find(allow, prio.ciphers[k]);
      EarliestExtends(prio, allow, conf, first, i, k);
      assert Inside(prio, first, i + 1);
    }
  }

  /** The group ends here, and something in it was acceptable. */
  lemma ProgressEnds(prio: Preference, allow: seq<Cipher>, conf: Config, i: nat, groupMin: Option<nat>, m: nat)
    requires WellFormed(prio) && i < |prio.ciphers| && Progress(prio, allow, conf, i, groupMin)
    requires !InGroup(prio, i)
    requires if Acceptable(prio, allow, conf, i) then
               var found := Find(allow, prio.ciphers[i]);
               m == if groupMin.Some? && groupMin.value <= found then groupMin.value else found
             else groupMin == Some(m)
    ensures m < |allow| && Chosen(prio, allow, conf, allow[m])
  {
    if groupMin.None? {
      assert FirstAcceptable(prio, allow, conf, i) && GroupEnds(prio, i, i) && Earliest(prio, allow, conf, i, i + 1, i);
    } else {
      var first: nat, k: nat :|
        FirstAcceptable(prio, allow, conf, first) && Inside(prio, first, i)
        && Earliest(prio, allow, conf, first, i, k) && groupMin.value == Find(allow, prio.ciphers[k]);
      EarliestExtends(prio, allow, conf, first, i, k);
      assert GroupEnds(prio, first, i);
      assert m == Find(allow, prio.ciphers[Earlier(prio, allow, conf, k, i)]);
    }
  }

  /** The list is at its end, so no group can still end. */
  lemma ProgressAtEnd(prio: Preference, allow: seq<Cipher>, conf: Config, groupMin: Option<nat>)
    requires WellFormed(prio) && Progress(prio, allow, conf, |prio.ciphers|, groupMin)
    ensures !SomeChosen(prio, allow, conf)
    ensures Closed(prio) ==> groupMin.None?
  {
    if groupMin.Some? {
      var first: nat :| FirstAcceptable(prio, allow, conf, first) && Inside(prio, first, |prio.ciphers|);
      assert InGroup(prio, |prio.ciphers| - 1);
    }
  }

  /**
   ssl3_choose_cipher: what the rule names, or nothing when it names nothing. `clientPref` is None
   when the client's list could not be parsed.
   */
  method Choose(clientPref: Option<seq<Cipher>>, serverPref: Preference, preferServer: bool, conf: Config)
    returns (c: Option<Cipher>)
    requires WellFormed(serverPref)
    ensures clientPref.None? ==> c.None?
    ensures clientPref.Some? ==>
              var prio := if preferServer then serverPref else Preference(clientPref.value, None);
              var allow := if preferServer then clientPref.value else serverPref.ciphers;
              && (if c.Some? then Chosen(prio, allow, conf, c.value) else !SomeChosen(prio, allow, conf))
              && (c.Some? ==> Shared(prio, allow, conf, c.value))
              && (Closed(prio) ==> (c.Some? <==> SomeShared(prio, allow, conf)))
  {
    hide Supported, Shared, Chosen, SomeChosen, Progress, FirstAcceptable;
    if clientPref.None? {
      return None;
    }
    var prio := if preferServer then serverPref else Preference(clientPref.value, None);
    var allow := if preferServer then clientPref.value else serverPref.ciphers;
    if Closed(prio) {
      SharedIsChosen(prio, allow, conf);
    }
    var groupMin: Option<nat> := None;
    var i := 0;
    ProgressStarts(prio, allow, conf);
    while i < |prio.ciphers|
      invariant 0 <= i <= |prio.ciphers|
      invariant Progress(prio, allow, conf, i, groupMin)
    {
      var cipher := prio.ciphers[i];
      if Supported(cipher, conf) && cipher in allow {
        var index := Find(allow, cipher);
        if InGroup(prio, i) {
          ghost var was := groupMin;
          if groupMin.None? || groupMin.value > index {
            groupMin := Some(index);
          }
          ProgressFound(prio, allow, conf, i, was, groupMin.value);
        } else {
          if groupMin.Some? && groupMin.value < index {
            index := groupMin.value;
          }
          ProgressEnds(prio, allow, conf, i, groupMin, index);
          ChosenIsShared(prio, allow, conf, allow[index]);
          return Some(allow[index]);
        }
      } else {
        if !InGroup(prio, i) && groupMin.Some? {
          ProgressEnds(prio, allow, conf, i, groupMin, groupMin.value);
          ChosenIsShared(prio, allow, conf, allow[groupMin.value]);
          return Some(allow[groupMin.value]);
        }
        ProgressSkipped(prio, allow, conf, i, groupMin);
      }
      i := i + 1;
    }
    ProgressAtEnd(prio, allow, conf, groupMin);
    return None;
  }
}
