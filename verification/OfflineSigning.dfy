/**
 * Offline signing: one side reports which signatures of a transaction verified, are absent or
 * are bad; the other reads the report back and looks signatures up by key.
 */
module OfflineSigning {
  import opened Prelude

  type Pubkey = nat
  type Signature = nat
  type Hash = nat

  /** `Signature::default()` stands for "not signed". */
  const NO_SIGNATURE: Signature := 0

  /** The text forms of keys, signatures and hashes, and the readers for them. */
  datatype Codec = Codec(
    keyText: Pubkey -> string, parseKey: string -> Option<Pubkey>,
    sigText: Signature -> string, parseSig: string -> Option<Signature>,
    hashText: Hash -> string, parseHash: string -> Option<Hash>)

  /** Reading undoes printing, and no printed key or signature contains the separator. */
  ghost predicate Sound(c: Codec)
  {
    && (forall k: Pubkey :: c.parseKey(c.keyText(k)) == Some(k) && '=' !in c.keyText(k))
    && (forall s: Signature :: c.parseSig(c.sigText(s)) == Some(s) && '=' !in c.sigText(s))
    && (forall h: Hash :: c.parseHash(c.hashText(h)) == Some(h))
  }

  /** A signature slot of a transaction: whose it is, what is there, whether it verifies. */
  datatype Slot = Slot(key: Pubkey, sig: Signature, verified: bool)

  datatype Transaction = Transaction(blockhash: Hash, message: string, keys: seq<Pubkey>, signatures: seq<Signature>)

  /** Signatures paired with the account keys, as far as both go, and verified one by one. */
  function Slots(tx: Transaction, verify: (Pubkey, Signature) -> bool): (r: seq<Slot>)
    ensures |r| == Min(|tx.signatures|, |tx.keys|)
  {
    seq(Min(|tx.signatures|, |tx.keys|),
        i requires 0 <= i < Min(|tx.signatures|, |tx.keys|) =>
          Slot(tx.keys[i], tx.signatures[i], verify(tx.keys[i], tx.signatures[i])))
  }

  // ---------------------------------------------------------------- the three classes

  datatype Class = Present | Absent | Bad

  function ClassOf(s: Slot): Class
  {
    if s.verified then Present else if s.sig == NO_SIGNATURE then Absent else Bad
  }

  /** The slots of one class, in order. */
  function Of(slots: seq<Slot>, c: Class): seq<Slot>
  {
    if slots == [] then []
    else
      var rest, last := Of(slots[..|slots| - 1], c), slots[|slots| - 1];
      if ClassOf(last) == c then rest + [last] else rest
  }

  /** Nothing is lost or duplicated: the classes together are the slots. */
  lemma {:induction false} ClassesPartition(slots: seq<Slot>)
    ensures multiset(Of(slots, Present)) + multiset(Of(slots, Absent)) + multiset(Of(slots, Bad)) == multiset(slots)
    ensures |Of(slots, Present)| + |Of(slots, Absent)| + |Of(slots, Bad)| == |slots|
  {
    if slots != [] {
      var init, last := slots[..|slots| - 1], slots[|slots| - 1];
      ClassesPartition(init);
      assert slots == init + [last];
    }
  }

  lemma {:induction false} OfMembers(slots: seq<Slot>, c: Class)
    ensures forall s :: s in Of(slots, c) <==> s in slots && ClassOf(s) == c
  {
    if slots != [] {
      var init, last := slots[..|slots| - 1], slots[|slots| - 1];
      OfMembers(init, c);
      assert forall s :: s in slots <==> s in init || s == last;
    }
  }

  /** The numbers below n with the property, in increasing order. */
  ghost predicate Selects(idx: seq<nat>, n: nat, p: nat -> bool)
  {
    && (forall j :: 0 <= j < |idx| ==> idx[j] < n && p(idx[j]))
    && (forall i, j :: 0 <= i < j < |idx| ==> idx[i] < idx[j])
    && (forall i :: 0 <= i < n && p(i) ==> i in idx)
  }

  lemma SelectsMore(idx: seq<nat>, n: nat, p: nat -> bool)
    requires Selects(idx, n, p)
    ensures Selects(if p(n) then idx + [n] else idx, n + 1, p)
  {
    assert forall i :: i in idx + [n] <==> i in idx || i == n;
  }

  ghost function InClass(slots: seq<Slot>, c: Class): nat -> bool
  {
    (i: nat) => i < |slots| && ClassOf(slots[i]) == c
  }

  lemma OfOneMore(slots: seq<Slot>, n: nat, c: Class)
    requires n < |slots|
    ensures var before := Of(slots[..n], c);
            Of(slots[..n + 1], c) == if ClassOf(slots[n]) == c then before + [slots[n]] else before
  {
    assert slots[..n + 1][..n] == slots[..n];
  }

  /** The chosen slots stand at these places. */
  ghost predicate StandAt(slots: seq<Slot>, idx: seq<nat>, chosen: seq<Slot>)
  {
    |idx| == |chosen| && forall j :: 0 <= j < |idx| ==> idx[j] < |slots| && slots[idx[j]] == chosen[j]
  }

  lemma ClassMore(slots: seq<Slot>, n: nat, c: Class, idx: seq<nat>, chosen: seq<Slot>)
    returns (next: seq<nat>, more: seq<Slot>)
    requires n < |slots| && Selects(idx, n, InClass(slots, c)) && StandAt(slots, idx, chosen)
    ensures Selects(next, n + 1, InClass(slots, c)) && StandAt(slots, next, more)
    ensures more == if ClassOf(slots[n]) == c then chosen + [slots[n]] else chosen
  {
    SelectsMore(idx, n, InClass(slots, c));
    next, more := idx, chosen;
    if ClassOf(slots[n]) == c { next, more := idx + [n], chosen + [slots[n]]; }
  }

  /** Where the slots of one class stand. */
  lemma {:induction false} OfSelects(slots: seq<Slot>, n: nat, c: Class) returns (idx: seq<nat>, chosen: seq<Slot>)
    requires n <= |slots|
    ensures Selects(idx, n, InClass(slots, c)) && StandAt(slots, idx, chosen)
    ensures chosen == Of(slots[..n], c)
  {
    if n == 0 {
      idx, chosen := [], [];
    } else {
      idx, chosen := OfSelects(slots, n - 1, c);
      OfOneMore(slots, n - 1, c);
      idx, chosen := ClassMore(slots, n - 1, c, idx, chosen);
    }
  }

  // ---------------------------------------------------------------- the report

  datatype SignOnlyData = SignOnlyData(
    blockhash: string, message: Option<string>, signers: seq<string>, absent: seq<string>, badSig: seq<string>)

  function PairText(c: Codec, s: Slot): string
  {
    c.keyText(s.key) + "=" + c.sigText(s.sig)
  }

  function PairTexts(c: Codec, slots: seq<Slot>): (r: seq<string>)
    ensures |r| == |slots|
  {
    seq(|slots|, i requires 0 <= i < |slots| => PairText(c, slots[i]))
  }

  function KeyTexts(c: Codec, slots: seq<Slot>): (r: seq<string>)
    ensures |r| == |slots|
  {
    seq(|slots|, i requires 0 <= i < |slots| => c.keyText(slots[i].key))
  }

  /** `return_signers_data`: one pass over the slots, three lists. */
  method ReturnSigners(
    c: Codec, tx: Transaction, verify: (Pubkey, Signature) -> bool, dumpMessage: bool) returns (d: SignOnlyData)
    ensures d == ReportOf(c, tx, Slots(tx, verify), dumpMessage)
  {
    var slots := Slots(tx, verify);
    var signers, absent, bad := [], [], [];
    var i := 0;
    while i < |slots|
      invariant i <= |slots|
      invariant signers == PairTexts(c, Of(slots[..i], Present))
      invariant absent == KeyTexts(c, Of(slots[..i], Absent))
      invariant bad == KeyTexts(c, Of(slots[..i], Bad))
    {
      assert slots[..i + 1][..i] == slots[..i];
      if slots[i].verified {
        signers := signers + [c.keyText(slots[i].key) + "=" + c.sigText(slots[i].sig)];
      } else if slots[i].sig == NO_SIGNATURE {
        absent := absent + [c.keyText(slots[i].key)];
      } else {
        bad := bad + [c.keyText(slots[i].key)];
      }
      i := i + 1;
    }
    assert slots[..|slots|] == slots;
    return SignOnlyData(c.hashText(tx.blockhash), if dumpMessage then Some(tx.message) else None, signers, absent, bad);
  }

  function ReportOf(c: Codec, tx: Transaction, slots: seq<Slot>, dumpMessage: bool): SignOnlyData
  {
    SignOnlyData(c.hashText(tx.blockhash), if dumpMessage then Some(tx.message) else None,
                 PairTexts(c, Of(slots, Present)), KeyTexts(c, Of(slots, Absent)), KeyTexts(c, Of(slots, Bad)))
  }

  // ---------------------------------------------------------------- the reply and its reader

  datatype Json = Str(text: string) | Arr(items: seq<string>)

  type Reply = map<string, Json>

  /** Serialization: an absent message and empty lists are left out. */
  function ToReply(d: SignOnlyData): Reply
  {
    map["blockhash" := Str(d.blockhash)]
    + (if d.message.Some? then map["message" := Str(d.message.value)] else map[])
    + (if d.signers != [] then map["signers" := Arr(d.signers)] else map[])
    + (if d.absent != [] then map["absent" := Arr(d.absent)] else map[])
    + (if d.badSig != [] then map["badSig" := Arr(d.badSig)] else map[])
  }

  datatype SignOnly = SignOnly(
    blockhash: Hash, message: Option<string>, present: seq<(Pubkey, Signature)>, absent: seq<Pubkey>,
    bad: seq<Pubkey>) {
    predicate HasAllSigners()
    {
      absent == [] && bad == []
    }
  }

  /** The text up to the first separator. */
  function Head(s: string): (r: string)
    ensures |r| <= |s|
  {
    if s == "" || s[0] == '=' then "" else [s[0]] + Head(s[1..])
  }

  /** `split('=')`, its first two pieces: the key and the signature. None is a failed unwrap. */
  function ReadPair(c: Codec, s: string): Option<(Pubkey, Signature)>
  {
    var first := Head(s);
    var key := c.parseKey(first);
    if key.None? || |first| == |s| then None
    else
      var sig := c.parseSig(Head(s[|first| + 1..]));
      if sig.None? then None else Some((key.value, sig.value))
  }

  function ReadPairs(c: Codec, texts: seq<string>): Option<seq<(Pubkey, Signature)>>
  {
    if texts == [] then Some([])
    else
      var init, last := ReadPairs(c, texts[..|texts| - 1]), ReadPair(c, texts[|texts| - 1]);
      if init.None? || last.None? then None else Some(init.value + [last.value])
  }

  function ReadKeys(c: Codec, texts: seq<string>): Option<seq<Pubkey>>
  {
    if texts == [] then Some([])
    else
      var init, last := ReadKeys(c, texts[..|texts| - 1]), c.parseKey(texts[|texts| - 1]);
      if init.None? || last.None? then None else Some(init.value + [last.value])
  }

  /** A list of the reply; a missing one is empty, anything but a list is a failed unwrap. */
  function ListAt(r: Reply, name: string): Option<seq<string>>
  {
    if name !in r then Some([]) else if r[name].Arr? then Some(r[name].items) else None
  }

  /** `parse_sign_only_reply_string`; None is one of its unwraps failing. */
  function ParseReply(c: Codec, r: Reply): Option<SignOnly>
  {
    if "blockhash" !in r || r["blockhash"].Arr? then None
    else
      var hash := c.parseHash(r["blockhash"].text);
      var signers, absent, bad := ListAt(r, "signers"), ListAt(r, "absent"), ListAt(r, "badSig");
      if hash.None? || signers.None? || absent.None? || bad.None? then None
      else
        var present, absentKeys := ReadPairs(c, signers.value), ReadKeys(c, absent.value);
        var badKeys := ReadKeys(c, bad.value);
        if present.None? || absentKeys.None? || badKeys.None? then None
        else
          Some(SignOnly(hash.value,
                        if "message" in r && r["message"].Str? then Some(r["message"].text) else None,
                        present.value, absentKeys.value, badKeys.value))
  }

  // ---------------------------------------------------------------- the round trip

  function Pairs(slots: seq<Slot>): (r: seq<(Pubkey, Signature)>)
    ensures |r| == |slots|
  {
    seq(|slots|, i requires 0 <= i < |slots| => (slots[i].key, slots[i].sig))
  }

  function Keys(slots: seq<Slot>): (r: seq<Pubkey>)
    ensures |r| == |slots|
  {
    seq(|slots|, i requires 0 <= i < |slots| => slots[i].key)
  }

  lemma {:induction false} HeadStopsAtSeparator(s: string, rest: string)
    requires '=' !in s
    ensures Head(s + "=" + rest) == s
    decreases |s|
  {
    var t := s + "=" + rest;
    if s != "" {
      assert t[1..] == s[1..] + "=" + rest;
      HeadStopsAtSeparator(s[1..], rest);
    }
  }

  lemma {:induction false} HeadWithoutSeparator(s: string)
    requires '=' !in s
    ensures Head(s) == s
  {
    if s != "" { HeadWithoutSeparator(s[1..]); }
  }

  /** A pair is read as the texts before and after the first separator say; without one it is not read. */
  lemma ReadPairMeans(c: Codec, key: string, sig: string)
    requires '=' !in key && '=' !in sig
    ensures ReadPair(c, key) == None
    ensures ReadPair(c, key + "=" + sig)
         == match (c.parseKey(key), c.parseSig(sig))
            case (Some(k), Some(s)) => Some((k, s))
            case _ => None
  {
    HeadWithoutSeparator(key);
    HeadWithoutSeparator(sig);
    HeadStopsAtSeparator(key, sig);
    assert (key + "=" + sig)[|key| + 1..] == sig;
  }

  lemma PairRoundTrip(c: Codec, s: Slot)
    requires Sound(c)
    ensures ReadPair(c, PairText(c, s)) == Some((s.key, s.sig))
  {
    var k, g := c.keyText(s.key), c.sigText(s.sig);
    HeadStopsAtSeparator(k, g);
    HeadWithoutSeparator(g);
    assert PairText(c, s)[|k| + 1..] == g;
  }

  /** Both readers of `pubkey=signature`, the reply's and the command line's, recover the pairs. */
  lemma {:induction false} PairsRoundTrip(c: Codec, slots: seq<Slot>)
    requires Sound(c)
    ensures ReadPairs(c, PairTexts(c, slots)) == Some(Pairs(slots))
  {
    if slots != [] {
      var n := |slots| - 1;
      PairsRoundTrip(c, slots[..n]);
      PairRoundTrip(c, slots[n]);
      PairTextsSnoc(c, slots);
    }
  }

  lemma PairTextsSnoc(c: Codec, slots: seq<Slot>)
    requires slots != []
    ensures var n := |slots| - 1;
            && PairTexts(c, slots)[..n] == PairTexts(c, slots[..n]) && PairTexts(c, slots)[n] == PairText(c, slots[n])
            && Pairs(slots) == Pairs(slots[..n]) + [(slots[n].key, slots[n].sig)]
  {
  }

  lemma {:induction false} KeysRoundTrip(c: Codec, slots: seq<Slot>)
    requires Sound(c)
    ensures ReadKeys(c, KeyTexts(c, slots)) == Some(Keys(slots))
  {
    if slots != [] {
      var n := |slots| - 1;
      KeysRoundTrip(c, slots[..n]);
      assert KeyTexts(c, slots)[..n] == KeyTexts(c, slots[..n]);
      assert Keys(slots) == Keys(slots[..n]) + [slots[n].key];
    }
  }

  lemma ReplyLists(d: SignOnlyData)
    ensures var r := ToReply(d);
            && ListAt(r, "signers") == Some(d.signers) && ListAt(r, "absent") == Some(d.absent)
            && ListAt(r, "badSig") == Some(d.badSig)
            && "blockhash" in r && r["blockhash"] == Str(d.blockhash)
            && (if d.message.Some? then "message" in r && r["message"] == Str(d.message.value) else "message" !in r)
  {
  }

  /** Exactly the message that is there and the lists that are not empty are in the reply, besides the blockhash. */
  lemma ReplyOmitsEmpty(d: SignOnlyData)
    ensures ("message" in ToReply(d) <==> d.message.Some?) && ("signers" in ToReply(d) <==> d.signers != [])
    ensures ("absent" in ToReply(d) <==> d.absent != []) && ("badSig" in ToReply(d) <==> d.badSig != [])
  {
  }

  /** Reading the printed report recovers the blockhash, the message and the three classes, in order. */
  lemma ReportRoundTrip(c: Codec, tx: Transaction, slots: seq<Slot>, dumpMessage: bool)
    requires Sound(c)
    ensures ParseReply(c, ToReply(ReportOf(c, tx, slots, dumpMessage)))
         == Some(SignOnly(tx.blockhash, if dumpMessage then Some(tx.message) else None,
                          Pairs(Of(slots, Present)), Keys(Of(slots, Absent)), Keys(Of(slots, Bad))))
  {
    ReplyLists(ReportOf(c, tx, slots, dumpMessage));
    PairsRoundTrip(c, Of(slots, Present));
    KeysRoundTrip(c, Of(slots, Absent));
    KeysRoundTrip(c, Of(slots, Bad));
  }

  // ---------------------------------------------------------------- using the report

  /** `presigner_from_pubkey_sigs`: the first signature under the key. */
  function PresignerOf(pairs: seq<(Pubkey, Signature)>, key: Pubkey): Option<Signature>
  {
    if pairs == [] then None
    else if pairs[0].0 == key then Some(pairs[0].1)
    else PresignerOf(pairs[1..], key)
  }

  /** The lookup succeeds exactly when the key is listed, with the signature it is first listed with. */
  lemma {:induction false} PresignerFinds(pairs: seq<(Pubkey, Signature)>, key: Pubkey)
    ensures PresignerOf(pairs, key).Some? <==> exists i :: 0 <= i < |pairs| && pairs[i].0 == key
    ensures PresignerOf(pairs, key).Some? ==> (key, PresignerOf(pairs, key).value) in pairs
    ensures forall i :: 0 <= i < |pairs| && pairs[i].0 == key && (forall j :: 0 <= j < i ==> pairs[j].0 != key)
              ==> PresignerOf(pairs, key) == Some(pairs[i].1)
  {
    if pairs != [] && pairs[0].0 != key {
      PresignerFinds(pairs[1..], key);
      assert forall i :: 0 < i < |pairs| ==> pairs[i] == pairs[1..][i - 1];
      assert forall i :: 0 <= i < |pairs| - 1 ==> pairs[1..][i] == pairs[i + 1];
    }
  }

  lemma PresentAreVerified(slots: seq<Slot>, key: Pubkey, sig: Signature)
    ensures (key, sig) in Pairs(Of(slots, Present)) <==> Slot(key, sig, true) in slots
  {
    var present := Of(slots, Present);
    OfMembers(slots, Present);
    if (key, sig) in Pairs(present) {
      var i :| 0 <= i < |present| && Pairs(present)[i] == (key, sig);
      assert present[i] in present;
    }
    if Slot(key, sig, true) in slots {
      var i :| 0 <= i < |present| && present[i] == Slot(key, sig, true);
      assert Pairs(present)[i] == (key, sig);
    }
  }

  /** Verified slots of one key carry one signature. */
  ghost predicate OneSignaturePerKey(slots: seq<Slot>)
  {
    forall s, t :: s in slots && t in slots && s.verified && t.verified && s.key == t.key ==> s.sig == t.sig
  }

  /** The lookup yields a signature for a key exactly when it verified. */
  ghost predicate LookupRight(pairs: seq<(Pubkey, Signature)>, slots: seq<Slot>, key: Pubkey, sig: Signature)
  {
    PresignerOf(pairs, key) == Some(sig) <==> Slot(key, sig, true) in slots
  }

  lemma OneSignatureIsFound(slots: seq<Slot>, key: Pubkey, sig: Signature)
    requires OneSignaturePerKey(slots)
    ensures LookupRight(Pairs(Of(slots, Present)), slots, key, sig)
  {
    var pairs := Pairs(Of(slots, Present));
    PresignerFinds(pairs, key);
    PresentAreVerified(slots, key, sig);
    if PresignerOf(pairs, key).Some? { PresentAreVerified(slots, key, PresignerOf(pairs, key).value); }
    if Slot(key, sig, true) in slots {
      var i :| 0 <= i < |pairs| && pairs[i] == (key, sig);
      assert Slot(key, PresignerOf(pairs, key).value, true) in slots;
    }
  }

  /** The lookup is right for all keys and signatures exactly when verified slots of one key carry one signature. */
  lemma LookupRightIffOneSignaturePerKey(slots: seq<Slot>, pairs: seq<(Pubkey, Signature)>)
    requires pairs == Pairs(Of(slots, Present))
    ensures (forall key, sig :: LookupRight(pairs, slots, key, sig)) <==> OneSignaturePerKey(slots)
  {
    if OneSignaturePerKey(slots) {
      forall key, sig
        ensures LookupRight(pairs, slots, key, sig)
      {
        OneSignatureIsFound(slots, key, sig);
      }
    } else {
      var s, t :| s in slots && t in slots && s.verified && t.verified && s.key == t.key && s.sig != t.sig;
      assert s == Slot(s.key, s.sig, true) && t == Slot(t.key, t.sig, true);
      assert !LookupRight(pairs, slots, s.key, s.sig) || !LookupRight(pairs, slots, t.key, t.sig);
    }
  }

  lemma AllVerified(slots: seq<Slot>, s: SignOnly)
    requires s.absent == Keys(Of(slots, Absent)) && s.bad == Keys(Of(slots, Bad))
    ensures s.HasAllSigners() <==> forall t :: t in slots ==> t.verified
  {
    OfMembers(slots, Absent);
    OfMembers(slots, Bad);
    if s.HasAllSigners() {
      forall t | t in slots
        ensures t.verified
      {
        assert t !in Of(slots, Absent) && t !in Of(slots, Bad);
      }
    } else if Of(slots, Absent) != [] {
      assert Of(slots, Absent)[0] in slots && !Of(slots, Absent)[0].verified;
    } else {
      assert Of(slots, Bad)[0] in slots && !Of(slots, Bad)[0].verified;
    }
  }

  /** Signature i of the transaction has a key and verifies for it. */
  predicate Verifies(tx: Transaction, verify: (Pubkey, Signature) -> bool, i: nat)
  {
    i < |tx.keys| && i < |tx.signatures| && verify(tx.keys[i], tx.signatures[i])
  }

  /** Signature i does not verify and is the empty one, or is not. */
  predicate FailsTo(tx: Transaction, verify: (Pubkey, Signature) -> bool, i: nat, empty: bool)
  {
    && i < |tx.keys| && i < |tx.signatures| && !verify(tx.keys[i], tx.signatures[i])
    && (tx.signatures[i] == NO_SIGNATURE <==> empty)
  }

  ghost function Verifying(tx: Transaction, verify: (Pubkey, Signature) -> bool): nat -> bool
  {
    (i: nat) => Verifies(tx, verify, i)
  }

  ghost function Failing(tx: Transaction, verify: (Pubkey, Signature) -> bool, empty: bool): nat -> bool
  {
    (i: nat) => FailsTo(tx, verify, i, empty)
  }

  ghost predicate PairsAt(tx: Transaction, idx: seq<nat>, pairs: seq<(Pubkey, Signature)>)
  {
    && |idx| == |pairs|
    && forall j :: 0 <= j < |idx| ==>
         idx[j] < |tx.keys| && idx[j] < |tx.signatures| && pairs[j] == (tx.keys[idx[j]], tx.signatures[idx[j]])
  }

  ghost predicate KeysAt(tx: Transaction, idx: seq<nat>, keys: seq<Pubkey>)
  {
    |idx| == |keys| && forall j :: 0 <= j < |idx| ==> idx[j] < |tx.keys| && keys[j] == tx.keys[idx[j]]
  }

  /** The pairs are the keys and signatures of those that verify, in order. */
  ghost predicate TellsPresent(tx: Transaction, verify: (Pubkey, Signature) -> bool, pairs: seq<(Pubkey, Signature)>)
  {
    exists idx :: Selects(idx, |tx.keys|, Verifying(tx, verify)) && PairsAt(tx, idx, pairs)
  }

  /** The keys are those whose signature does not verify, empty ones or others, in order. */
  ghost predicate TellsFailed(tx: Transaction, verify: (Pubkey, Signature) -> bool, keys: seq<Pubkey>, empty: bool)
  {
    exists idx :: Selects(idx, |tx.keys|, Failing(tx, verify, empty)) && KeysAt(tx, idx, keys)
  }

  lemma SelectsAlike(idx: seq<nat>, n: nat, p: nat -> bool, m: nat, q: nat -> bool)
    requires Selects(idx, n, p) && n <= m
    requires forall i: nat :: i < m && q(i) <==> i < n && p(i)
    ensures Selects(idx, m, q)
  {
  }

  lemma PresentTold(tx: Transaction, verify: (Pubkey, Signature) -> bool)
    ensures TellsPresent(tx, verify, Pairs(Of(Slots(tx, verify), Present)))
  {
    var slots := Slots(tx, verify);
    var idx, chosen := OfSelects(slots, |slots|, Present);
    assert slots[..|slots|] == slots;
    SelectsAlike(idx, |slots|, InClass(slots, Present), |tx.keys|, Verifying(tx, verify));
    assert PairsAt(tx, idx, Pairs(Of(slots, Present)));
  }

  lemma FailedTold(tx: Transaction, verify: (Pubkey, Signature) -> bool, empty: bool)
    ensures TellsFailed(tx, verify, Keys(Of(Slots(tx, verify), if empty then Absent else Bad)), empty)
  {
    var slots, c := Slots(tx, verify), if empty then Absent else Bad;
    var idx, chosen := OfSelects(slots, |slots|, c);
    assert slots[..|slots|] == slots;
    SelectsAlike(idx, |slots|, InClass(slots, c), |tx.keys|, Failing(tx, verify, empty));
    assert KeysAt(tx, idx, Keys(Of(slots, c)));
  }

  /**
   * Both sides together: sign and report, send the reply, read it. What is read is the transaction's
   * blockhash and message; all signers are there exactly when every slot verifies; every signature
   * found verified; and the lookup is right throughout exactly when verified slots of one key carry
   * one signature.
   */
  method SignAndRead(c: Codec, tx: Transaction, verify: (Pubkey, Signature) -> bool, dumpMessage: bool)
    returns (r: Option<SignOnly>)
    requires Sound(c)
    ensures r.Some? && r.value.blockhash == tx.blockhash
    ensures r.value.message == if dumpMessage then Some(tx.message) else None
    ensures TellsPresent(tx, verify, r.value.present)
    ensures TellsFailed(tx, verify, r.value.absent, true) && TellsFailed(tx, verify, r.value.bad, false)
    ensures r.value.HasAllSigners() <==> forall t :: t in Slots(tx, verify) ==> t.verified
    ensures |r.value.present| + |r.value.absent| + |r.value.bad| == |Slots(tx, verify)|
    ensures forall key :: PresignerOf(r.value.present, key).Some? ==>
        verify(key, PresignerOf(r.value.present, key).value)
    ensures (forall key, sig :: LookupRight(r.value.present, Slots(tx, verify), key, sig))
       <==> OneSignaturePerKey(Slots(tx, verify))
  {
    var d := ReturnSigners(c, tx, verify, dumpMessage);
    r := ParseReply(c, ToReply(d));
    ghost var slots := Slots(tx, verify);
    ReportRoundTrip(c, tx, slots, dumpMessage);
    PresentTold(tx, verify);
    FailedTold(tx, verify, true);
    FailedTold(tx, verify, false);
    AllVerified(slots, r.value);
    ClassesPartition(slots);
    LookupRightIffOneSignaturePerKey(slots, r.value.present);
    forall key | PresignerOf(r.value.present, key).Some?
      ensures verify(key, PresignerOf(r.value.present, key).value)
    {
      FoundIsVerified(tx, verify, key);
    }
  }

  lemma FoundIsVerified(tx: Transaction, verify: (Pubkey, Signature) -> bool, key: Pubkey)
    ensures var found := PresignerOf(Pairs(Of(Slots(tx, verify), Present)), key); found.Some? ==>
        verify(key, found.value)
  {
    var slots := Slots(tx, verify);
    var pairs := Pairs(Of(slots, Present));
    PresignerFinds(pairs, key);
    if PresignerOf(pairs, key).Some? { PresentAreVerified(slots, key, PresignerOf(pairs, key).value); }
  }
}
