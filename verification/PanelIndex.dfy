/** The indexes over the panel's users that the back-fill resolves accounts with. */
module PanelIndex {
  import opened Wrappers

  /** A panel user, its identifiers already normalised; `id` is absent when it is no number. */
  datatype Item = Item(id: Option<int>, uuid: Option<string>, vlessUuid: Option<string>, email: Option<string>)

  datatype Column = Uuid | Vless | Email

  datatype Index = Index(
    ids: set<int>,
    byUuid: map<string, int>, duplicateUuids: set<string>,
    byVless: map<string, int>, duplicateVless: set<string>,
    crossCollisions: set<string>,
    byEmail: map<string, int>, duplicateEmails: set<string>)

  function KeyOf(item: Item, c: Column): Option<string> {
    match c case Uuid => item.uuid case Vless => item.vlessUuid case Email => item.email
  }

  /** Item `i` carries `key` in column `c` and is user `id`. */
  predicate Carries(items: seq<Item>, i: nat, c: Column, key: string, id: int) {
    i < |items| && items[i].id == Some(id) && KeyOf(items[i], c) == Some(key)
  }

  predicate Candidate(items: seq<Item>, c: Column, key: string, id: int) {
    exists i :: 0 <= i < |items| && Carries(items, i, c, key, id)
  }

  /** The mapping holds exactly the keys that name one user; the others are the duplicates. */
  ghost predicate Indexes(items: seq<Item>, c: Column, mapping: map<string, int>, duplicates: set<string>) {
    && (forall k, id :: (k in mapping && mapping[k] == id) <==>
          Candidate(items, c, k, id) && forall other :: Candidate(items, c, k, other) ==> other == id)
    && (forall k :: k in duplicates <==>
          exists a, b :: a != b && Candidate(items, c, k, a) && Candidate(items, c, k, b))
  }

  ghost predicate IndexOf(items: seq<Item>, index: Index) {
    && (forall id :: id in index.ids <==> exists i :: 0 <= i < |items| && items[i].id == Some(id))
    && Indexes(items, Uuid, index.byUuid, index.duplicateUuids)
    && Indexes(items, Vless, index.byVless, index.duplicateVless)
    && Indexes(items, Email, index.byEmail, index.duplicateEmails)
    && (forall k :: k in index.crossCollisions <==>
          k in index.byUuid && k in index.byVless && index.byUuid[k] != index.byVless[k])
  }

  /** Every resolved id is a panel id. */
  ghost predicate Grounded(index: Index) {
    && (forall k :: k in index.byUuid ==> index.byUuid[k] in index.ids)
    && (forall k :: k in index.byVless ==> index.byVless[k] in index.ids)
    && (forall k :: k in index.byEmail ==> index.byEmail[k] in index.ids)
  }

  lemma IndexIsGrounded(items: seq<Item>, index: Index)
    requires IndexOf(items, index)
    ensures Grounded(index)
  {
    forall k | k in index.byUuid
      ensures index.byUuid[k] in index.ids
    {
      CandidateIsId(items, Uuid, k, index.byUuid[k]);
    }
    forall k | k in index.byVless
      ensures index.byVless[k] in index.ids
    {
      CandidateIsId(items, Vless, k, index.byVless[k]);
    }
    forall k | k in index.byEmail
      ensures index.byEmail[k] in index.ids
    {
      CandidateIsId(items, Email, k, index.byEmail[k]);
    }
  }

  lemma CandidateIsId(items: seq<Item>, c: Column, k: string, id: int)
    requires Candidate(items, c, k, id)
    ensures exists i :: 0 <= i < |items| && items[i].id == Some(id)
  {
    var i :| 0 <= i < |items| && Carries(items, i, c, k, id);
    assert items[i].id == Some(id);
  }

  type Candidates = map<string, set<int>>

  predicate Has(found: Candidates, key: string, id: int) {
    key in found && id in found[key]
  }

  /** The ids collected for `key` among the first `n` items. */
  ghost predicate Collected(items: seq<Item>, n: nat, c: Column, found: Candidates)
    requires n <= |items|
  {
    && (forall k :: k in found ==> exists id :: Has(found, k, id))
    && (forall k, id :: Has(found, k, id) <==> Candidate(items[..n], c, k, id))
  }

  function Added(found: Candidates, item: Item, c: Column): Candidates {
    if item.id.None? || KeyOf(item, c).None? then found
    else
      var k := KeyOf(item, c).value;
      found[k := (if k in found then found[k] else {}) + {item.id.value}]
  }

  lemma CandidateStep(items: seq<Item>, n: nat, c: Column, k: string, id: int)
    requires n < |items|
    ensures Candidate(items[..n + 1], c, k, id) <==>
            Candidate(items[..n], c, k, id) || Carries(items, n, c, k, id)
  {
    if Candidate(items[..n], c, k, id) {
      var i :| 0 <= i < n && Carries(items[..n], i, c, k, id);
      assert Carries(items[..n + 1], i, c, k, id);
    }
    if Carries(items, n, c, k, id) {
      assert Carries(items[..n + 1], n, c, k, id);
    }
    if Candidate(items[..n + 1], c, k, id) {
      var i :| 0 <= i < n + 1 && Carries(items[..n + 1], i, c, k, id);
      assert i < n ==> Carries(items[..n], i, c, k, id);
    }
  }

  lemma CollectedStep(items: seq<Item>, n: nat, c: Column, found: Candidates)
    requires n < |items| && Collected(items, n, c, found)
    ensures Collected(items, n + 1, c, Added(found, items[n], c))
  {
    var next := Added(found, items[n], c);
    forall k, id ensures Has(next, k, id) <==> Candidate(items[..n + 1], c, k, id) {
      CandidateStep(items, n, c, k, id);
      assert Has(next, k, id) <==> Has(found, k, id) || Carries(items, n, c, k, id);
    }
    forall k | k in next ensures exists id :: Has(next, k, id) {
      if k in found {
        var id :| Has(found, k, id);
        assert Has(next, k, id);
      } else {
        assert Has(next, k, items[n].id.value);
      }
    }
  }

  /** The keys with one id, and the keys with several. */
  method Split(items: seq<Item>, c: Column, found: Candidates)
    returns (mapping: map<string, int>, duplicates: set<string>)
    requires Collected(items, |items|, c, found)
    ensures Indexes(items, c, mapping, duplicates)
  {
    assert items[..|items|] == items;
    duplicates := set k | k in found && exists a, b :: a in found[k] && b in found[k] && a != b;
    mapping := map[];
    var rest := found.Keys - duplicates;
    while exists k :: k in rest
      invariant rest <= found.Keys - duplicates
      invariant mapping.Keys == found.Keys - duplicates - rest
      invariant forall k :: k in mapping ==> mapping[k] in found[k]
      decreases rest
    {
      var k :| k in rest;
      var id :| id in found[k] && Has(found, k, id);
      mapping := mapping[k := id];
      rest := rest - {k};
    }
    forall k, id ensures (k in mapping && mapping[k] == id) <==>
        Candidate(items, c, k, id) && forall other :: Candidate(items, c, k, other) ==> other == id {
      if k in mapping {
        assert Has(found, k, mapping[k]);
        forall other | Candidate(items, c, k, other) ensures other == mapping[k] {
          assert Has(found, k, other) && k !in duplicates;
        }
      } else if Candidate(items, c, k, id) {
        assert Has(found, k, id);
        assert k in duplicates;
        var a, b :| a in found[k] && b in found[k] && a != b;
        assert Has(found, k, a) && Has(found, k, b);
      }
    }
    forall k ensures k in duplicates <==>
        exists a, b :: a != b && Candidate(items, c, k, a) && Candidate(items, c, k, b) {
      if k in duplicates {
        var a, b :| a in found[k] && b in found[k] && a != b;
        assert Has(found, k, a) && Has(found, k, b);
      }
      if a, b :| a != b && Candidate(items, c, k, a) && Candidate(items, c, k, b) {
        assert Has(found, k, a) && Has(found, k, b);
      }
    }
  }

  /** The ids of the first `n` items. */
  ghost predicate IdsUpTo(items: seq<Item>, n: nat, ids: set<int>)
    requires n <= |items|
  {
    forall id :: id in ids <==> exists i :: 0 <= i < n && items[i].id == Some(id)
  }

  function WithId(ids: set<int>, item: Item): set<int> { if item.id.Some? then ids + {item.id.value} else ids }

  lemma IdsStep(items: seq<Item>, n: nat, ids: set<int>)
    requires n < |items| && IdsUpTo(items, n, ids)
    ensures IdsUpTo(items, n + 1, WithId(ids, items[n]))
  {
    forall id ensures id in WithId(ids, items[n]) <==> exists i :: 0 <= i < n + 1 && items[i].id == Some(id) {
      assert items[n].id == Some(id) <==> id in WithId(ids, items[n]) && items[n].id == Some(id);
    }
  }

  /** The first pass over the panel's users: their ids, and the ids under each key. */
  method Collect(items: seq<Item>) returns (ids: set<int>, legacy: Candidates, protocol: Candidates, email: Candidates)
    ensures IdsUpTo(items, |items|, ids)
    ensures Collected(items, |items|, Uuid, legacy) && Collected(items, |items|, Vless, protocol)
    ensures Collected(items, |items|, Email, email)
  {
    ids, legacy, protocol, email := {}, map[], map[], map[];
    for n := 0 to |items|
      invariant IdsUpTo(items, n, ids)
      invariant Collected(items, n, Uuid, legacy)
      invariant Collected(items, n, Vless, protocol)
      invariant Collected(items, n, Email, email)
    {
      CollectedStep(items, n, Uuid, legacy);
      CollectedStep(items, n, Vless, protocol);
      CollectedStep(items, n, Email, email);
      IdsStep(items, n, ids);
      if items[n].id.Some? {
        ids := ids + {items[n].id.value};
      }
      legacy := Added(legacy, items[n], Uuid);
      protocol := Added(protocol, items[n], Vless);
      email := Added(email, items[n], Email);
    }
  }

  /** `build_panel_index`. */
  method Build(items: seq<Item>) returns (index: Index)
    ensures IndexOf(items, index) && Grounded(index)
  {
    var ids, legacy, protocol, email := Collect(items);
    var byUuid, duplicateUuids := Split(items, Uuid, legacy);
    var byVless, duplicateVless := Split(items, Vless, protocol);
    var byEmail, duplicateEmails := Split(items, Email, email);
    var cross := set k | k in byUuid && k in byVless && byUuid[k] != byVless[k];
    index := Index(ids, byUuid, duplicateUuids, byVless, duplicateVless, cross, byEmail, duplicateEmails);
    IndexIsGrounded(items, index);
  }
}
