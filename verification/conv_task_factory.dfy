/** The conversion-task factory: two registries of plugin agents and the assembly of a
    conversion task from a decoder and an encoder.
    - the decoder map sends a file suffix to the list of decoder agents registered for
      it, in registration order; the first one is the one used;
    - the encoder map sends an encoder name to one encoder agent.
    Plugin objects are created and freed through foreign calls, so the object a
    `CreateObject` call returns is an input, and the objects created and freed are
    reported alongside the result. */
module ConvTaskFactory {
  import opened PluginDef
  import opened Buckets
  import opened StringOrder

  /** A registered agent as the factory sees it: an identity plus the attributes the
      factory reads from it — its category, the suffixes a probe decoder object reports,
      and the name in its plugin info. */
  datatype AgentRef = AgentRef(id: nat, kind: PluginType, suffixes: seq<string>, name: string)

  type DecMap = map<string, seq<AgentRef>>
  type EncMap = map<string, AgentRef>

  datatype Factory = Factory(dec: DecMap, enc: EncMap)

  datatype MediaItem = MediaItem(url: string)

  datatype ConvTask = ConvTask(
    item: MediaItem,
    decAgent: AgentRef, decoder: Instance,
    encAgent: AgentRef, encoder: Instance)

  /** A plugin object together with the agent that created it. */
  datatype Owned = Owned(agent: AgentRef, obj: Instance)

  /** A task, or null; plus the objects the call created and those it freed, each list
      in call order. */
  datatype TaskResult = TaskResult(task: Option<ConvTask>, created: seq<Owned>, freed: seq<Owned>)

  // ---------------------------------------------------------------------------
  // Invariant

  /** Every decoder bucket is non-empty. */
  predicate NonEmptyBuckets(dec: DecMap)
  {
    forall k :: k in dec ==> dec[k] != []
  }

  /** The registries hold what registration puts there: decoders under suffixes they
      declare, in non-empty buckets, and encoders under their own names. */
  predicate WellFormed(f: Factory)
  {
    && NonEmptyBuckets(f.dec)
    && (forall k, i :: k in f.dec && 0 <= i < |f.dec[k]| ==>
          f.dec[k][i].kind == Decoder && k in f.dec[k][i].suffixes)
    && (forall n :: n in f.enc ==> f.enc[n].kind == Encoder && f.enc[n].name == n)
  }

  /** The bucket for `k`, empty when the suffix is absent. */
  function Bucket(dec: DecMap, k: string): seq<AgentRef>
  {
    if k in dec then dec[k] else []
  }

  /** Counting occurrences in a sequence one element at a time. */
  lemma CountCons(s: seq<string>, k: string)
    requires s != []
    ensures multiset(s)[k] == (if s[0] == k then 1 else 0) + multiset(s[1..])[k]
    ensures k in s <==> s[0] == k || k in s[1..]
  {
    assert s == [s[0]] + s[1..];
  }

  // ---------------------------------------------------------------------------
  // Decoder registry

  /** The loop of `AddDecAgent`: appends `a` to the bucket of each suffix in turn,
      creating a one-element bucket for a suffix not yet present. */
  function AddSuffixes(dec: DecMap, a: AgentRef, sfx: seq<string>): (r: DecMap)
    ensures forall k :: k in r <==> k in dec || k in sfx
    ensures forall k :: k in r ==> r[k] == Bucket(dec, k) + Copies(a, multiset(sfx)[k])
    decreases |sfx|
  {
    if sfx == [] then dec
    else
      var d1 := dec[sfx[0] := Bucket(dec, sfx[0]) + [a]];
      var r := AddSuffixes(d1, a, sfx[1..]);
      assert forall k :: (k in r <==> k in dec || k in sfx)
                      && (k in r ==> r[k] == Bucket(dec, k) + Copies(a, multiset(sfx)[k])) by {
        forall k
          ensures k in r <==> k in dec || k in sfx
          ensures k in r ==> r[k] == Bucket(dec, k) + Copies(a, multiset(sfx)[k])
        {
          AddStep(dec, d1, r, a, sfx, k);
        }
      }
      r
  }

  /** The inductive step of `AddSuffixes` for one key. */
  lemma AddStep(dec: DecMap, d1: DecMap, r: DecMap, a: AgentRef, sfx: seq<string>, k: string)
    requires sfx != [] && d1 == dec[sfx[0] := Bucket(dec, sfx[0]) + [a]]
    requires k in r <==> k in d1 || k in sfx[1..]
    requires k in r ==> r[k] == Bucket(d1, k) + Copies(a, multiset(sfx[1..])[k])
    ensures k in r <==> k in dec || k in sfx
    ensures k in r ==> r[k] == Bucket(dec, k) + Copies(a, multiset(sfx)[k])
  {
    CountCons(sfx, k);
    if k == sfx[0] {
      var n := multiset(sfx[1..])[k];
      assert Copies(a, n + 1) == [a] + Copies(a, n);
      assert Bucket(d1, k) + Copies(a, n) == Bucket(dec, k) + ([a] + Copies(a, n));
    }
  }

  /** `AddDecAgent`: registers decoder `a` under every suffix it declares. */
  function AddDecAgent(dec: DecMap, a: AgentRef): (r: DecMap)
    ensures forall k :: k in r ==> r[k] == Bucket(dec, k) + Copies(a, multiset(a.suffixes)[k])
    ensures forall s :: s in a.suffixes ==> s in r && r[s] != [] && r[s][|r[s]| - 1] == a
    ensures forall s :: s in a.suffixes && s !in dec && multiset(a.suffixes)[s] == 1 ==> r[s] == [a]
    ensures forall k :: k !in a.suffixes ==> (k in r <==> k in dec) && (k in dec ==> r[k] == dec[k])
    ensures forall k :: k in dec ==> k in r && |dec[k]| <= |r[k]| && r[k][..|dec[k]|] == dec[k]
  {
    var r := AddSuffixes(dec, a, a.suffixes);
    AppendedShape(dec, a, a.suffixes, r);
    r
  }

  /** What appending copies of `a` per listed suffix means for each bucket. */
  lemma AppendedShape(dec: DecMap, a: AgentRef, sfx: seq<string>, r: DecMap)
    requires forall k :: k in r <==> k in dec || k in sfx
    requires forall k :: k in r ==> r[k] == Bucket(dec, k) + Copies(a, multiset(sfx)[k])
    ensures forall s :: s in sfx ==> s in r && r[s] != [] && r[s][|r[s]| - 1] == a
    ensures forall s :: s in sfx && s !in dec && multiset(sfx)[s] == 1 ==> r[s] == [a]
    ensures forall k :: k !in sfx ==> (k in r <==> k in dec) && (k in dec ==> r[k] == dec[k])
    ensures forall k :: k in dec ==> k in r && |dec[k]| <= |r[k]| && r[k][..|dec[k]|] == dec[k]
  {
    forall s | s in sfx
      ensures s in r && r[s] != [] && r[s][|r[s]| - 1] == a
    {
      var c := Copies(a, multiset(sfx)[s]);
      assert r[s] == Bucket(dec, s) + c;
      assert r[s][|r[s]| - 1] == c[|c| - 1];
    }
    forall s | s in sfx && s !in dec && multiset(sfx)[s] == 1
      ensures r[s] == [a]
    {
      assert r[s] == [] + Copies(a, 1);
    }
    forall k | k in dec
      ensures k in r && |dec[k]| <= |r[k]| && r[k][..|dec[k]|] == dec[k]
    {
      assert r[k] == dec[k] + Copies(a, multiset(sfx)[k]);
    }
    forall k | k !in sfx && k in dec
      ensures r[k] == dec[k]
    {
      assert r[k] == dec[k] + Copies(a, 0);
    }
  }

  /** One step of `RemoveDecAgent`'s loop: erases the first occurrence of `a` from the
      bucket of `s` and erases the bucket if that leaves it empty. */
  function RemoveSuffix(dec: DecMap, s: string, a: AgentRef): (r: DecMap)
    ensures forall k :: k != s ==> (k in r <==> k in dec) && (k in r ==> r[k] == dec[k])
    ensures s in r <==> s in dec && RemoveFirst(dec[s], a) != []
    ensures s in r ==> r[s] == RemoveFirst(dec[s], a)
  {
    if s !in dec then dec
    else
      var b := RemoveFirst(dec[s], a);
      if b == [] then dec - {s} else dec[s := b]
  }

  /** The loop of `RemoveDecAgent` over the suffix list. */
  function RemoveSuffixes(dec: DecMap, a: AgentRef, sfx: seq<string>): (r: DecMap)
    ensures forall k :: k in r <==>
      k in dec && (k in sfx ==> RemoveN(dec[k], a, multiset(sfx)[k]) != [])
    ensures forall k :: k in r ==> r[k] == RemoveN(dec[k], a, multiset(sfx)[k])
    decreases |sfx|
  {
    if sfx == [] then dec
    else
      var s := sfx[0];
      var d1 := RemoveSuffix(dec, s, a);
      var r := RemoveSuffixes(d1, a, sfx[1..]);
      assert forall k :: (k in r <==> k in dec && (k in sfx ==> RemoveN(dec[k], a, multiset(sfx)[k]) != []))
                      && (k in r ==> r[k] == RemoveN(dec[k], a, multiset(sfx)[k])) by {
        forall k
          ensures k in r <==> k in dec && (k in sfx ==> RemoveN(dec[k], a, multiset(sfx)[k]) != [])
          ensures k in r ==> r[k] == RemoveN(dec[k], a, multiset(sfx)[k])
        {
          RemoveStep(dec, d1, r, a, sfx, k);
        }
      }
      r
  }

  /** The inductive step of `RemoveSuffixes` for one key. */
  lemma RemoveStep(dec: DecMap, d1: DecMap, r: DecMap, a: AgentRef, sfx: seq<string>, k: string)
    requires sfx != [] && d1 == RemoveSuffix(dec, sfx[0], a)
    requires k in r <==> k in d1 && (k in sfx[1..] ==> RemoveN(d1[k], a, multiset(sfx[1..])[k]) != [])
    requires k in r ==> r[k] == RemoveN(d1[k], a, multiset(sfx[1..])[k])
    ensures k in r <==> k in dec && (k in sfx ==> RemoveN(dec[k], a, multiset(sfx)[k]) != [])
    ensures k in r ==> r[k] == RemoveN(dec[k], a, multiset(sfx)[k])
  {
    CountCons(sfx, k);
    if k == sfx[0] && k in dec && RemoveFirst(dec[k], a) == [] {
      var n := multiset(sfx[1..])[k];
      assert multiset(sfx)[k] == n + 1;
      assert RemoveN(dec[k], a, n + 1) == RemoveN([], a, n);
      assert k !in d1;
      RemoveNEmpty(a, n);
    }
  }

  /** `RemoveDecAgent`: unregisters decoder `a` from the bucket of every suffix it declares. */
  function RemoveDecAgent(dec: DecMap, a: AgentRef): (r: DecMap)
    ensures r.Keys <= dec.Keys
    ensures forall k :: k in r ==> r[k] == RemoveN(dec[k], a, multiset(a.suffixes)[k])
    ensures forall k :: k in a.suffixes ==>
      (k in r <==> k in dec && RemoveN(dec[k], a, multiset(a.suffixes)[k]) != [])
    ensures forall k :: k !in a.suffixes ==> (k in r <==> k in dec) && (k in r ==> r[k] == dec[k])
    ensures forall k :: k in r ==> multiset(r[k]) <= multiset(dec[k])
    ensures NonEmptyBuckets(dec) ==> NonEmptyBuckets(r)
  {
    RemoveSuffixes(dec, a, a.suffixes)
  }

  /** Removing a decoder that occurs once in the suffix list erases exactly its first
      occurrence in that suffix's bucket and keeps the rest in order; a bucket that is
      left empty disappears. */
  lemma RemoveDecAgentSplices(dec: DecMap, a: AgentRef, s: string)
    requires s in dec && multiset(a.suffixes)[s] == 1
    ensures a in dec[s] && |dec[s]| > 1 ==>
      s in RemoveDecAgent(dec, a) &&
      RemoveDecAgent(dec, a)[s] == dec[s][..FirstIndex(dec[s], a)] + dec[s][FirstIndex(dec[s], a) + 1..]
    ensures a !in dec[s] && dec[s] != [] ==> s in RemoveDecAgent(dec, a) && RemoveDecAgent(dec, a)[s] == dec[s]
    ensures dec[s] == [a] ==> s !in RemoveDecAgent(dec, a)
  {
    assert s in a.suffixes;
    var b := dec[s];
    assert RemoveN(b, a, 1) == RemoveFirst(b, a);
    RemoveFirstSplices(b, a);
    if b == [a] {
      assert FirstIndex(b, a) == 0;
    }
  }

  // ---------------------------------------------------------------------------
  // Encoder registry

  /** `AddEncAgent`: inserts `a` under its name unless that name is already taken, in
      which case the earlier entry stays. */
  function AddEncAgent(enc: EncMap, a: AgentRef): (r: EncMap)
    ensures r.Keys == enc.Keys + {a.name}
    ensures a.name in enc ==> r == enc
    ensures a.name !in enc ==> r[a.name] == a
    ensures forall n :: n in enc ==> r[n] == enc[n]
  {
    if a.name in enc then enc else enc[a.name := a]
  }

  /** `RemoveEncAgent`: erases whatever entry is stored under `a`'s name, whichever agent
      it belongs to. */
  function RemoveEncAgent(enc: EncMap, a: AgentRef): (r: EncMap)
    ensures r.Keys == enc.Keys - {a.name}
    ensures forall n :: n in r ==> r[n] == enc[n]
    ensures a.name !in enc ==> r == enc
  {
    enc - {a.name}
  }

  // ---------------------------------------------------------------------------
  // Registration

  /** `RegisterPluginAgent`: dispatches on the agent's category; other categories are ignored. */
  function RegisterPluginAgent(f: Factory, a: AgentRef): (r: Factory)
    ensures a.kind != Decoder && a.kind != Encoder ==> r == f
    ensures a.kind == Decoder ==> r.enc == f.enc && r.dec == AddDecAgent(f.dec, a)
    ensures a.kind == Encoder ==> r.dec == f.dec && r.enc == AddEncAgent(f.enc, a)
    ensures WellFormed(f) ==> WellFormed(r)
  {
    match a.kind
    case Decoder =>
      var r := f.(dec := AddDecAgent(f.dec, a));
      AddDecAgentKeepsWellFormed(f, a);
      r
    case Encoder => f.(enc := AddEncAgent(f.enc, a))
    case _ => f
  }

  /** Adding a decoder keeps the registry invariant. */
  lemma AddDecAgentKeepsWellFormed(f: Factory, a: AgentRef)
    requires a.kind == Decoder
    ensures WellFormed(f) ==> WellFormed(f.(dec := AddDecAgent(f.dec, a)))
  {
    if WellFormed(f) {
      var d: DecMap := AddDecAgent(f.dec, a);
      forall k: string, i: int | k in d && 0 <= i < |d[k]|
        ensures d[k][i].kind == Decoder && k in d[k][i].suffixes
      {
        var n := multiset(a.suffixes)[k];
        var b := Bucket(f.dec, k);
        assert d[k] == b + Copies(a, n);
        if i >= |b| {
          assert d[k][i] == a;
          assert n > 0;
        }
      }
    }
  }

  /** `UnregisterPluginAgent`: dispatches on the agent's category; other categories are ignored. */
  function UnregisterPluginAgent(f: Factory, a: AgentRef): (r: Factory)
    ensures a.kind != Decoder && a.kind != Encoder ==> r == f
    ensures a.kind == Decoder ==> r.enc == f.enc && r.dec == RemoveDecAgent(f.dec, a)
    ensures a.kind == Encoder ==> r.dec == f.dec && r.enc == RemoveEncAgent(f.enc, a)
    ensures WellFormed(f) ==> WellFormed(r)
  {
    match a.kind
    case Decoder =>
      var r := f.(dec := RemoveDecAgent(f.dec, a));
      assert WellFormed(f) ==> WellFormed(r) by {
        if WellFormed(f) {
          forall k, i | k in r.dec && 0 <= i < |r.dec[k]|
            ensures r.dec[k][i].kind == Decoder && k in r.dec[k][i].suffixes
          {
            assert r.dec[k][i] in multiset(r.dec[k]);
          }
        }
      }
      r
    case Encoder => f.(enc := RemoveEncAgent(f.enc, a))
    case _ => f
  }

  /** `UnregisterAll`: repeatedly takes the least suffix, unregisters every decoder of its
      bucket (a copy of the bucket taken before the first removal) and erases the suffix;
      then clears the encoder map. */
  method UnregisterAll(f: Factory) returns (r: Factory)
    ensures r.dec == map[] && r.enc == map[]
  {
    var dec := f.dec;
    while dec != map[]
      decreases |dec|
    {
      var before := dec;
      var k := LeastKey(dec.Keys);
      var list := dec[k];
      var i := 0;
      while i < |list|
        invariant dec.Keys <= before.Keys
      {
        dec := RemoveDecAgent(dec, list[i]);
        i := i + 1;
      }
      dec := dec - {k};
      assert dec.Keys <= before.Keys - {k};
      assert |dec.Keys| <= |before.Keys - {k}| by { SubsetSize(dec.Keys, before.Keys - {k}); }
    }
    r := Factory(dec, map[]);
  }

  lemma {:induction false} SubsetSize<T>(a: set<T>, b: set<T>)
    requires a <= b
    ensures |a| <= |b|
    decreases |b|
  {
    if a != {} {
      var x :| x in a;
      SubsetSize(a - {x}, b - {x});
    }
  }

  /** Not yet registered in the registry its category selects. */
  predicate Unregistered(f: Factory, a: AgentRef)
  {
    (forall k :: k in f.dec ==> a !in f.dec[k]) && (a.kind == Encoder ==> a.name !in f.enc)
  }

  /** Two maps with the same keys and the same value at each key are equal. */
  lemma SameMap<K, V>(m1: map<K, V>, m2: map<K, V>)
    requires forall k :: (k in m1 <==> k in m2) && (k in m1 ==> m1[k] == m2[k])
    ensures m1 == m2
  {
    assert m1.Keys == m2.Keys;
  }

  /** Adding then removing a decoder that is in no bucket restores the bucket of `k`. */
  lemma DecoderRoundTripAt(dec: DecMap, a: AgentRef, k: string)
    requires NonEmptyBuckets(dec) && (forall j :: j in dec ==> a !in dec[j])
    ensures var r := RemoveDecAgent(AddDecAgent(dec, a), a);
      (k in r <==> k in dec) && (k in r ==> r[k] == dec[k])
  {
    var d1 := AddSuffixes(dec, a, a.suffixes);
    var n := multiset(a.suffixes)[k];
    if k in d1 {
      assert d1[k] == Bucket(dec, k) + Copies(a, n);
      RemoveNUndoesCopies(Bucket(dec, k), a, n);
    }
  }

  /** Adding then removing a decoder that is in no bucket gives the decoder map back. */
  lemma DecoderRoundTrip(dec: DecMap, a: AgentRef)
    requires NonEmptyBuckets(dec) && (forall j :: j in dec ==> a !in dec[j])
    ensures RemoveDecAgent(AddDecAgent(dec, a), a) == dec
  {
    var r := RemoveDecAgent(AddDecAgent(dec, a), a);
    forall k
      ensures (k in r <==> k in dec) && (k in r ==> r[k] == dec[k])
    {
      DecoderRoundTripAt(dec, a, k);
    }
    SameMap(r, dec);
  }

  /** Registering an agent that was not registered and then unregistering it gives the
      factory back. */
  lemma RegisterUnregisterRoundTrip(f: Factory, a: AgentRef)
    requires WellFormed(f) && Unregistered(f, a)
    ensures UnregisterPluginAgent(RegisterPluginAgent(f, a), a) == f
  {
    var r := RegisterPluginAgent(f, a);
    if a.kind == Decoder {
      assert r == f.(dec := AddDecAgent(f.dec, a));
      DecoderRoundTrip(f.dec, a);
    } else if a.kind == Encoder {
      assert a.name !in f.enc;
      assert r == f.(enc := f.enc[a.name := a]);
      assert f.enc[a.name := a] - {a.name} == f.enc;
    }
  }

  /** The first decoder registered for a suffix stays the one selected whatever decoders
      are registered after it. */
  lemma FirstRegisteredWins(f: Factory, a: AgentRef, s: string)
    requires WellFormed(f) && s in f.dec
    ensures var r := RegisterPluginAgent(f, a); s in r.dec && r.dec[s][0] == f.dec[s][0]
  {
  }

  /** Unregistering the selected decoder of a suffix hands the selection to the next one. */
  lemma FallbackAfterUnregister(f: Factory, a: AgentRef, s: string)
    requires WellFormed(f) && a.kind == Decoder && s in f.dec && f.dec[s][0] == a
    requires |f.dec[s]| > 1 && multiset(a.suffixes)[s] == 1
    ensures var r := UnregisterPluginAgent(f, a); s in r.dec && r.dec[s] == f.dec[s][1..]
  {
    RemoveDecAgentSplices(f.dec, a, s);
    assert FirstIndex(f.dec[s], a) == 0;
  }

  // ---------------------------------------------------------------------------
  // Queries and task assembly

  /** `GetEncoderNames`: the encoder names in the map's key order. */
  method GetEncoderNames(f: Factory) returns (names: seq<string>)
    ensures |names| == |f.enc|
    ensures forall i :: 0 <= i < |names| ==> names[i] in f.enc
    ensures forall n :: n in f.enc ==> n in names
    ensures forall i, j :: 0 <= i < j < |names| ==> Below(names[i], names[j])
  {
    var rest := f.enc.Keys;
    names := [];
    while rest != {}
      invariant rest <= f.enc.Keys
      invariant |names| + |rest| == |f.enc.Keys|
      invariant forall i :: 0 <= i < |names| ==> names[i] in f.enc && names[i] !in rest
      invariant forall n :: n in f.enc ==> n in names || n in rest
      invariant forall i, j :: 0 <= i < j < |names| ==> Below(names[i], names[j])
      invariant forall i, n :: 0 <= i < |names| && n in rest ==> Below(names[i], n)
      decreases |rest|
    {
      var m := LeastKey(rest);
      names := names + [m];
      rest := rest - {m};
    }
  }

  /** `CreateTask`: takes the first decoder agent of the bucket for the item's suffix and
      the encoder agent under `encoder`, asks each one found for an object (`decObj` and
      `encObj` are what those calls return), and builds a task only when both objects
      exist; otherwise every object it obtained goes back to its creator. `suffixOf`
      stands for the file-suffix helper. */
  function CreateTask(f: Factory, item: MediaItem, encoder: string, suffixOf: string -> string,
                      decObj: Option<Instance>, encObj: Option<Instance>): (r: TaskResult)
    requires NonEmptyBuckets(f.dec)
    ensures var s := suffixOf(item.url);
      r.task.Some? <==> s in f.dec && encoder in f.enc && decObj.Some? && encObj.Some?
    ensures r.task.Some? ==>
      r.task.value == ConvTask(item, f.dec[suffixOf(item.url)][0], decObj.value, f.enc[encoder], encObj.value)
    ensures r.task.Some? ==>
      r.created == [Owned(r.task.value.decAgent, r.task.value.decoder),
                    Owned(r.task.value.encAgent, r.task.value.encoder)] &&
      r.freed == []
    ensures multiset(r.created) ==
      (if suffixOf(item.url) in f.dec && decObj.Some?
       then multiset{Owned(f.dec[suffixOf(item.url)][0], decObj.value)} else multiset{}) +
      (if encoder in f.enc && encObj.Some? then multiset{Owned(f.enc[encoder], encObj.value)} else multiset{})
    ensures r.task.Null? ==> r.freed == r.created
  {
    var s := suffixOf(item.url);
    var dec := if s in f.dec && decObj.Some? then [Owned(f.dec[s][0], decObj.value)] else [];
    var enc := if encoder in f.enc && encObj.Some? then [Owned(f.enc[encoder], encObj.value)] else [];
    if dec != [] && enc != [] then
      TaskResult(Some(ConvTask(item, dec[0].agent, dec[0].obj, enc[0].agent, enc[0].obj)), dec + enc, [])
    else
      TaskResult(Null, dec + enc, dec + enc)
  }
}
