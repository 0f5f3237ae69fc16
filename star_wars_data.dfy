/**
 * The in-memory character store of the StarWars sample schema: two lists,
 * humans and droids, seeded with four characters, the queries the
 * resolvers and batch loaders call, and AddHuman.
 *
 * A character's Id is nullable and its Friends list may be null; the ids a
 * batch loader passes are nullable strings. An ILookup is modelled as a map
 * from key to the non-empty sequence of its values, a dictionary as a map,
 * and Task.FromResult as the value itself.
 */
module StarWars {
  import opened Wrappers
  import opened Linq

  /** StarWarsCharacter with its two kinds, Human and Droid. */
  datatype Character =
    | Human(id: Option<string>, name: Option<string>, friends: Option<seq<string>>, appearsIn: seq<int>,
            homePlanet: Option<string>)
    | Droid(id: Option<string>, name: Option<string>, friends: Option<seq<string>>, appearsIn: seq<int>,
            ownerId: Option<string>, primaryFunction: Option<string>)

  /** The exceptions the dictionary operations raise: ArgumentException and KeyNotFoundException. */
  datatype StoreError = DuplicateKey(key: string) | KeyNotFound(key: string)

  // The seed data of the store's constructor.
  function Luke(): Character {
    Human(Some("1"), Some("Luke"), Some(["3", "4"]), [4, 5, 6], Some("Tatooine"))
  }

  function Vader(): Character {
    Human(Some("2"), Some("Vader"), None, [4, 5, 6], Some("Tatooine"))
  }

  function R2D2(): Character {
    Droid(Some("3"), Some("R2-D2"), Some(["1", "4"]), [4, 5, 6], Some("1"), Some("Astromech"))
  }

  function C3PO(): Character {
    Droid(Some("4"), Some("C-3PO"), None, [4, 5, 6], Some("1"), Some("Protocol"))
  }

  /** x ?? fallback, for a nullable string. */
  function OrElse(x: Option<string>, fallback: string): string {
    if x.Some? then x.value else fallback
  }

  /** lookup.Contains(x.Id): a null id is never listed, as a Friends list holds no null. */
  predicate Listed(lookup: seq<string>, x: Character) {
    x.id.Some? && x.id.value in lookup
  }

  /** character.Friends != null && character.Friends.Contains(x.Id). */
  predicate IsFriend(character: Character, x: Character) {
    character.friends.Some? && Listed(character.friends.value, x)
  }

  /** The test ids.Contains(x.Id) of the batch queries. */
  function Requested(ids: seq<Option<string>>): Character -> bool {
    (x: Character) => x.id in ids
  }

  /** The test h.Id == id of the single lookups. */
  function HasId(id: string): Character -> bool {
    (x: Character) => x.id == Some(id)
  }

  /** The test of character's friends list, as a function. */
  function FriendOf(character: Character): Character -> bool {
    x => IsFriend(character, x)
  }

  /** The characters of all that character names as friends, in the order of all. */
  function FriendsOf(all: seq<Character>, character: Character): (r: seq<Character>)
    ensures forall x :: x in r <==> x in all && IsFriend(character, x)
    ensures IsSubsequence(r, all)
    ensures forall x | x in all && IsFriend(character, x) :: multiset(r)[x] == multiset(all)[x]
  {
    WhereSubsequence(all, FriendOf(character));
    Where(all, FriendOf(character))
  }

  /**
   * The (key, friend) pairs of the selected characters, keyed by
   * Id ?? "N/A": each character's friends in the order of all, the
   * characters in the order of selected.
   */
  function FriendPairs(all: seq<Character>, selected: seq<Character>): (r: seq<(string, Character)>)
    ensures forall k, x | (k, x) in r :: x in all && exists c | c in selected :: k == OrElse(c.id, "N/A") && IsFriend(c, x)
    ensures forall c, x | c in selected && x in all && IsFriend(c, x) :: (OrElse(c.id, "N/A"), x) in r
  {
    if selected == [] then []
    else
      var c := selected[0];
      var fs := FriendsOf(all, c);
      var head := Keyed(OrElse(c.id, "N/A"), fs);
      var rest := FriendPairs(all, selected[1..]);
      assert forall d | d in selected[1..] :: d in selected;
      head + rest
  }

  /** Each of vs paired with the key k, in order. */
  function Keyed(k: string, vs: seq<Character>): (r: seq<(string, Character)>)
    ensures |r| == |vs| && forall i | 0 <= i < |vs| :: r[i] == (k, vs[i])
    ensures forall j: string, v: Character :: (j, v) in r <==> j == k && v in vs
  {
    var r := seq(|vs|, i requires 0 <= i < |vs| => (k, vs[i]));
    assert forall v | v in vs :: (k, v) in r by {
      forall v | v in vs
        ensures (k, v) in r
      {
        var i :| 0 <= i < |vs| && vs[i] == v;
        assert r[i] == (k, v);
      }
    }
    r
  }

  /**
   * Enumerable.ToDictionary over key Id ?? "", adding in list order onto acc:
   * fails on the first key already present.
   */
  function AddAll(s: seq<Character>, acc: map<string, Character>): (r: Result<map<string, Character>, StoreError>)
    ensures r.Ok? <==>
              (forall i | 0 <= i < |s| :: OrElse(s[i].id, "") !in acc) &&
              (forall i, j | 0 <= i < j < |s| :: OrElse(s[i].id, "") != OrElse(s[j].id, ""))
    ensures r.Ok? ==> forall i | 0 <= i < |s| :: OrElse(s[i].id, "") in r.value && r.value[OrElse(s[i].id, "")] == s[i]
    ensures r.Ok? ==> forall k | k in acc :: k in r.value && r.value[k] == acc[k]
    ensures r.Ok? ==> forall k | k in r.value :: k in acc || exists i | 0 <= i < |s| :: OrElse(s[i].id, "") == k
  {
    if s == [] then Ok(acc)
    else
      var k := OrElse(s[0].id, "");
      if k in acc then Err(DuplicateKey(k))
      else
        var r := AddAll(s[1..], acc[k := s[0]]);
        assert forall i | 1 <= i < |s| :: s[i] == s[1..][i - 1];
        r
  }

  function ToDictionary(s: seq<Character>): (r: Result<map<string, Character>, StoreError>)
    ensures r.Ok? <==> forall i, j | 0 <= i < j < |s| :: OrElse(s[i].id, "") != OrElse(s[j].id, "")
    ensures r.Ok? ==> forall i | 0 <= i < |s| :: OrElse(s[i].id, "") in r.value && r.value[OrElse(s[i].id, "")] == s[i]
    ensures r.Ok? ==> forall k | k in r.value :: exists i | 0 <= i < |s| :: OrElse(s[i].id, "") == k
  {
    AddAll(s, map[])
  }

  /** The nullable id x, read as x ?? "", is the key of a droid of droids. */
  predicate KnownDroid(droids: seq<Character>, x: Option<string>) {
    exists d | d in droids :: OrElse(d.id, "") == OrElse(x, "")
  }

  /** o, one of all, owns a droid of droids whose id is k. */
  predicate OwnerOf(droids: seq<Character>, all: seq<Character>, k: Option<string>, o: Character) {
    exists d | d in droids :: d.Droid? && d.id == k && d.ownerId.Some? && o in all && OrElse(o.id, "") == d.ownerId.value
  }

  /** k is the id of a droid of droids whose key, Id ?? "", some requested id reads as. */
  predicate RequestedDroid(droids: seq<Character>, ids: seq<Option<string>>, k: Option<string>) {
    exists i, d | 0 <= i < |ids| && d in droids :: d.id == k && OrElse(d.id, "") == OrElse(ids[i], "")
  }

  /** Every owner id of a droid of droids is the key, Id ?? "", of one of all. */
  predicate OwnersStored(droids: seq<Character>, all: seq<Character>) {
    forall d | d in droids && d.Droid? && d.ownerId.Some? :: exists c | c in all :: OrElse(c.id, "") == d.ownerId.value
  }

  /** The id x resolves: its droid exists, and so does that droid's owner when it has one. */
  predicate Resolves(x: Option<string>, droidById: map<string, Character>, characterById: map<string, Character>)
    requires forall k | k in droidById :: droidById[k].Droid?
  {
    && OrElse(x, "") in droidById
    && var d := droidById[OrElse(x, "")];
       d.ownerId.Some? ==> d.ownerId.value in characterById
  }

  /**
   * The (droid id, owner) pairs of GetDroidOwnersByIdsAsync, in the order of
   * ids; a droid without owner adds none. The first id whose droid or owner
   * is missing raises KeyNotFoundException.
   */
  function OwnerPairs(ids: seq<Option<string>>, droidById: map<string, Character>,
                      characterById: map<string, Character>): (r: Result<seq<(Option<string>, Character)>, StoreError>)
    requires forall k | k in droidById :: droidById[k].Droid?
    ensures r.Ok? <==> forall i | 0 <= i < |ids| :: Resolves(ids[i], droidById, characterById)
    ensures r.Ok? ==> forall p | p in r.value ::
              exists i | 0 <= i < |ids| ::
                var d := droidById[OrElse(ids[i], "")];
                d.ownerId.Some? && p == (d.id, characterById[d.ownerId.value])
    ensures r.Ok? ==> forall i | 0 <= i < |ids| && droidById[OrElse(ids[i], "")].ownerId.Some? ::
              var d := droidById[OrElse(ids[i], "")];
              (d.id, characterById[d.ownerId.value]) in r.value
  {
    if ids == [] then Ok([])
    else
      var key := OrElse(ids[0], "");
      if key !in droidById then Err(KeyNotFound(key))
      else
        var d := droidById[key];
        var rest := OwnerPairs(ids[1..], droidById, characterById);
        assert forall i | 1 <= i < |ids| :: ids[i] == ids[1..][i - 1];
        if d.ownerId.None? then rest
        else if d.ownerId.value !in characterById then Err(KeyNotFound(d.ownerId.value))
        else if rest.Err? then rest
        else Ok([(d.id, characterById[d.ownerId.value])] + rest.value)
  }

  class StarWarsData {
    var humans: seq<Character>
    var droids: seq<Character>

    /** The human list holds humans, the droid list droids. */
    ghost predicate Valid()
      reads this
    {
      (forall h | h in humans :: h.Human?) && (forall d | d in droids :: d.Droid?)
    }

    /** The seed: humans Luke and Vader, then droids R2-D2 and C-3PO, both owned by Luke. */
    constructor ()
      ensures Valid()
      ensures humans == [Luke(), Vader()] && droids == [R2D2(), C3PO()]
    {
      humans := [];
      droids := [];
      humans := humans + [Luke()];
      humans := humans + [Vader()];
      droids := droids + [R2D2()];
      droids := droids + [C3PO()];
    }

    /**
     * GetFriends: nothing for a null character or a null friends list;
     * otherwise the stored humans, then the stored droids, that the
     * character lists as friends, each in store order.
     */
    function GetFriends(character: Option<Character>): (r: seq<Character>)
      reads this
      ensures character.None? || character.value.friends.None? ==> r == []
      ensures forall x :: x in r <==> (x in humans || x in droids) && character.Some? && IsFriend(character.value, x)
      ensures IsSubsequence(r, humans + droids)
      ensures forall x | x in humans + droids && character.Some? && IsFriend(character.value, x) ::
                multiset(r)[x] == multiset(humans + droids)[x]
    {
      if character.None? || character.value.friends.None? then []
      else
        var c := character.value;
        WhereSubsequence(humans, FriendOf(c));
        WhereSubsequence(droids, FriendOf(c));
        SubsequenceAppend(Where(humans, FriendOf(c)), Where(droids, FriendOf(c)), humans, droids);
        FriendsCount(humans, droids, c);
        Where(humans, FriendOf(c)) + Where(droids, FriendOf(c))
    }

    /**
     * GetFriendsForIdsAsync: every stored character whose id is requested
     * is keyed by Id ?? "N/A" to its friends among all stored characters; a
     * key exists only where some requested character has a friend.
     */
    function GetFriendsForIds(ids: seq<Option<string>>): (r: map<string, seq<Character>>)
      reads this
      ensures forall k | k in r :: r[k] != []
      ensures forall k, x | k in r && x in r[k] ::
                x in humans + droids &&
                exists c | c in humans + droids && c.id in ids :: k == OrElse(c.id, "N/A") && IsFriend(c, x)
      ensures forall c, x | c in humans + droids && c.id in ids && x in humans + droids && IsFriend(c, x) ::
                OrElse(c.id, "N/A") in r && x in r[OrElse(c.id, "N/A")]
    {
      FriendsLookupSound(humans + droids, ids);
      FriendsLookupComplete(humans + droids, ids);
      ToLookup(FriendPairs(humans + droids, Where(humans + droids, Requested(ids))))
    }

    /** GetHumanByIdAsync: the first stored human with this id, or null. */
    function GetHumanById(id: string): (r: Option<Character>)
      reads this
      ensures r.None? <==> forall i | 0 <= i < |humans| :: humans[i].id != Some(id)
      ensures r.Some? ==> exists i | 0 <= i < |humans| ::
                humans[i] == r.value && r.value.id == Some(id) && forall j | 0 <= j < i :: humans[j].id != Some(id)
    {
      FirstOrDefault(humans, HasId(id))
    }

    /** GetDroidByIdAsync: the first stored droid with this id, or null. */
    function GetDroidById(id: string): (r: Option<Character>)
      reads this
      ensures r.None? <==> forall i | 0 <= i < |droids| :: droids[i].id != Some(id)
      ensures r.Some? ==> exists i | 0 <= i < |droids| ::
                droids[i] == r.value && r.value.id == Some(id) && forall j | 0 <= j < i :: droids[j].id != Some(id)
    {
      FirstOrDefault(droids, HasId(id))
    }

    /**
     * GetDroidsByIdsAsync: the stored droids whose id is requested, in store
     * order, each as often as it is stored however often its id is requested.
     */
    function GetDroidsByIds(ids: seq<Option<string>>): (r: seq<Character>)
      reads this
      ensures forall x :: x in r <==> x in droids && x.id in ids
      ensures IsSubsequence(r, droids)
      ensures multiset(r) <= multiset(droids)
      ensures forall x | x in droids && x.id in ids :: multiset(r)[x] == multiset(droids)[x]
    {
      WhereSubsequence(droids, Requested(ids));
      Where(droids, Requested(ids))
    }

    /**
     * GetDroidOwnersByIdsAsync: each requested droid id, in the order of ids,
     * keyed to the character owning that droid; droids without owner are
     * skipped. A repeated key among the droids or among all characters, or
     * an id without droid or an owner without character, raises.
     */
    function GetDroidOwnersByIds(ids: seq<Option<string>>): (r: Result<map<Option<string>, seq<Character>>, StoreError>)
      requires Valid()
      reads this
      ensures r.Ok? ==> forall i | 0 <= i < |ids| :: KnownDroid(droids, ids[i])
      ensures r.Ok? ==> forall k, o | k in r.value && o in r.value[k] :: OwnerOf(droids, humans + droids, k, o)
      ensures (&& ToDictionary(droids).Ok? && ToDictionary(humans + droids).Ok?
               && (forall i | 0 <= i < |ids| :: KnownDroid(droids, ids[i]))
               && OwnersStored(droids, humans + droids)) ==> r.Ok?
      ensures r.Ok? ==> forall i, d | 0 <= i < |ids| && d in droids && OrElse(d.id, "") == OrElse(ids[i], "") &&
                d.ownerId.Some? :: d.id in r.value
      ensures r.Ok? ==> forall k | k in r.value :: RequestedDroid(droids, ids, k)
    {
      match ToDictionary(droids)
      case Err(e) => Err(e)
      case Ok(droidById) =>
        match ToDictionary(humans + droids)
        case Err(e) => Err(e)
        case Ok(characterById) =>
          assert forall k | k in droidById :: droidById[k] in droids;
          OwnersResolve(ids, droids, humans + droids, droidById, characterById);
          match OwnerPairs(ids, droidById, characterById)
          case Err(e) => Err(e)
          case Ok(pairs) =>
            OwnersKnown(ids, droids, droidById, characterById);
            OwnersSound(ids, droids, humans + droids, droidById, characterById, pairs);
            OwnersComplete(ids, droids, droidById, characterById, pairs);
            OwnersRequested(ids, droids, droidById, characterById, pairs);
            Ok(ToLookup(pairs))
    }

    /**
     * AddHuman: the human gets the fresh id (a new Guid in the source) and is
     * appended; the droids and the humans already stored are unchanged.
     */
    method AddHuman(human: Character, freshId: string) returns (r: Character)
      requires Valid() && human.Human?
      modifies this
      ensures Valid()
      ensures r.Human? && r.id == Some(freshId)
      ensures r.name == human.name && r.friends == human.friends && r.appearsIn == human.appearsIn
      ensures r.homePlanet == human.homePlanet
      ensures humans == old(humans) + [r] && droids == old(droids)
      ensures (forall i | 0 <= i < |old(humans)| :: old(humans)[i].id != Some(freshId)) ==> GetHumanById(freshId) == Some(r)
      ensures forall id | id != freshId :: GetHumanById(id) == old(GetHumanById(id))
    {
      r := Human(Some(freshId), human.name, human.friends, human.appearsIn, human.homePlanet);
      ghost var before := humans;
      humans := humans + [r];
      forall id | true
        ensures FirstOrDefault(humans, HasId(id)) ==
                if FirstOrDefault(before, HasId(id)).Some? || r.id != Some(id)
                then FirstOrDefault(before, HasId(id)) else Some(r)
      {
        FirstOrDefaultAppend(before, r, HasId(id));
      }
    }
  }

  /** Every friend in the lookup is a stored friend of a requested character with that key. */
  lemma FriendsLookupSound(all: seq<Character>, ids: seq<Option<string>>)
    ensures var r := ToLookup(FriendPairs(all, Where(all, Requested(ids))));
            forall k, x | k in r && x in r[k] ::
              x in all && exists c | c in all && c.id in ids :: k == OrElse(c.id, "N/A") && IsFriend(c, x)
  {
    var selected := Where(all, Requested(ids));
    var pairs := FriendPairs(all, selected);
    forall k, x | k in ToLookup(pairs) && x in ToLookup(pairs)[k]
      ensures x in all && exists c | c in all && c.id in ids :: k == OrElse(c.id, "N/A") && IsFriend(c, x)
    {
      assert (k, x) in pairs by {
        ToLookupSound(pairs, k, x);
      }
      var c :| c in selected && k == OrElse(c.id, "N/A") && IsFriend(c, x);
      assert c in all && c.id in ids;
    }
  }

  /** Every stored friend of a requested character is in the lookup under that character's key. */
  lemma FriendsLookupComplete(all: seq<Character>, ids: seq<Option<string>>)
    ensures var r := ToLookup(FriendPairs(all, Where(all, Requested(ids))));
            forall c, x | c in all && c.id in ids && x in all && IsFriend(c, x) ::
              OrElse(c.id, "N/A") in r && x in r[OrElse(c.id, "N/A")]
  {
    var selected := Where(all, Requested(ids));
    var pairs := FriendPairs(all, selected);
    forall c, x | c in all && c.id in ids && x in all && IsFriend(c, x)
      ensures OrElse(c.id, "N/A") in ToLookup(pairs) && x in ToLookup(pairs)[OrElse(c.id, "N/A")]
    {
      assert c in selected;
      var i :| 0 <= i < |pairs| && pairs[i] == (OrElse(c.id, "N/A"), x);
    }
  }

  /** A value of ToDictionary(s) is an element of s stored under its own key. */
  lemma DictionaryEntry(s: seq<Character>, m: map<string, Character>, key: string)
    requires ToDictionary(s) == Ok(m) && key in m
    ensures m[key] in s && OrElse(m[key].id, "") == key
  {
    var i :| 0 <= i < |s| && OrElse(s[i].id, "") == key;
  }

  /** An element of s is stored in ToDictionary(s) under its key. */
  lemma DictionaryHolds(s: seq<Character>, m: map<string, Character>, x: Character)
    requires ToDictionary(s) == Ok(m) && x in s
    ensures OrElse(x.id, "") in m && m[OrElse(x.id, "")] == x
  {
    var i :| 0 <= i < |s| && s[i] == x;
  }

  /** Every requested id of a successful GetDroidOwnersByIdsAsync is a stored droid's key. */
  lemma OwnersKnown(ids: seq<Option<string>>, droids: seq<Character>,
                    droidById: map<string, Character>, characterById: map<string, Character>)
    requires ToDictionary(droids) == Ok(droidById)
    requires forall k | k in droidById :: droidById[k].Droid?
    requires OwnerPairs(ids, droidById, characterById).Ok?
    ensures forall i | 0 <= i < |ids| :: KnownDroid(droids, ids[i])
  {
    forall i | 0 <= i < |ids|
      ensures KnownDroid(droids, ids[i])
    {
      assert Resolves(ids[i], droidById, characterById);
      DictionaryEntry(droids, droidById, OrElse(ids[i], ""));
    }
  }

  /** When every requested droid and every owner is stored, every requested id resolves. */
  lemma OwnersResolve(ids: seq<Option<string>>, droids: seq<Character>, all: seq<Character>,
                      droidById: map<string, Character>, characterById: map<string, Character>)
    requires ToDictionary(droids) == Ok(droidById) && ToDictionary(all) == Ok(characterById)
    requires forall k | k in droidById :: droidById[k].Droid?
    ensures (forall i | 0 <= i < |ids| :: KnownDroid(droids, ids[i])) && OwnersStored(droids, all) ==>
              OwnerPairs(ids, droidById, characterById).Ok?
  {
    if (forall i | 0 <= i < |ids| :: KnownDroid(droids, ids[i])) && OwnersStored(droids, all) {
      forall i | 0 <= i < |ids|
        ensures Resolves(ids[i], droidById, characterById)
      {
        assert KnownDroid(droids, ids[i]);
        var d :| d in droids && OrElse(d.id, "") == OrElse(ids[i], "");
        DictionaryHolds(droids, droidById, d);
        if d.ownerId.Some? {
          var c :| c in all && OrElse(c.id, "") == d.ownerId.value;
          DictionaryHolds(all, characterById, c);
        }
      }
    }
  }

  /** One value of the owner lookup is the owner of the droid it is keyed by. */
  lemma OwnerSoundAt(ids: seq<Option<string>>, droids: seq<Character>, all: seq<Character>,
                     droidById: map<string, Character>, characterById: map<string, Character>,
                     pairs: seq<(Option<string>, Character)>, k: Option<string>, o: Character)
    requires ToDictionary(droids) == Ok(droidById) && ToDictionary(all) == Ok(characterById)
    requires forall k | k in droidById :: droidById[k].Droid?
    requires OwnerPairs(ids, droidById, characterById) == Ok(pairs)
    requires (k, o) in pairs
    ensures OwnerOf(droids, all, k, o)
  {
    var i :| 0 <= i < |ids| && var d := droidById[OrElse(ids[i], "")];
             d.ownerId.Some? && (k, o) == (d.id, characterById[d.ownerId.value]);
    var d := droidById[OrElse(ids[i], "")];
    DictionaryEntry(droids, droidById, OrElse(ids[i], ""));
    DictionaryEntry(all, characterById, d.ownerId.value);
    assert d in droids && d.id == k && d.ownerId.Some? && o in all && OrElse(o.id, "") == d.ownerId.value;
  }

  /** Each value of the owner lookup is the owner of the droid it is keyed by. */
  lemma OwnersSound(ids: seq<Option<string>>, droids: seq<Character>, all: seq<Character>,
                    droidById: map<string, Character>, characterById: map<string, Character>,
                    pairs: seq<(Option<string>, Character)>)
    requires ToDictionary(droids) == Ok(droidById) && ToDictionary(all) == Ok(characterById)
    requires forall k | k in droidById :: droidById[k].Droid?
    requires OwnerPairs(ids, droidById, characterById) == Ok(pairs)
    ensures forall k, o | k in ToLookup(pairs) && o in ToLookup(pairs)[k] ::
              OwnerOf(droids, all, k, o)
  {
    forall k, o | k in ToLookup(pairs) && o in ToLookup(pairs)[k]
      ensures OwnerOf(droids, all, k, o)
    {
      ToLookupSound(pairs, k, o);
      OwnerSoundAt(ids, droids, all, droidById, characterById, pairs, k, o);
    }
  }

  /** Every requested droid that has an owner is a key of the owner lookup. */
  lemma OwnersComplete(ids: seq<Option<string>>, droids: seq<Character>,
                       droidById: map<string, Character>, characterById: map<string, Character>,
                       pairs: seq<(Option<string>, Character)>)
    requires ToDictionary(droids) == Ok(droidById)
    requires forall k | k in droidById :: droidById[k].Droid?
    requires OwnerPairs(ids, droidById, characterById) == Ok(pairs)
    ensures forall i, d | 0 <= i < |ids| && d in droids && OrElse(d.id, "") == OrElse(ids[i], "") && d.ownerId.Some? ::
              d.id in ToLookup(pairs)
  {
    forall i, d | 0 <= i < |ids| && d in droids && OrElse(d.id, "") == OrElse(ids[i], "") && d.ownerId.Some?
      ensures d.id in ToLookup(pairs)
    {
      DictionaryHolds(droids, droidById, d);
      assert Resolves(ids[i], droidById, characterById);
      var p :| 0 <= p < |pairs| && pairs[p] == (d.id, characterById[d.ownerId.value]);
    }
  }

  /** Every key of the owner lookup is the id of a requested droid: it holds nothing else. */
  lemma OwnersRequested(ids: seq<Option<string>>, droids: seq<Character>,
                        droidById: map<string, Character>, characterById: map<string, Character>,
                        pairs: seq<(Option<string>, Character)>)
    requires ToDictionary(droids) == Ok(droidById)
    requires forall k | k in droidById :: droidById[k].Droid?
    requires OwnerPairs(ids, droidById, characterById) == Ok(pairs)
    ensures forall k | k in ToLookup(pairs) :: RequestedDroid(droids, ids, k)
  {
    forall k | k in ToLookup(pairs)
      ensures RequestedDroid(droids, ids, k)
    {
      var p :| 0 <= p < |pairs| && pairs[p].0 == k;
      assert pairs[p] in pairs;
      var i :| 0 <= i < |ids| && var d := droidById[OrElse(ids[i], "")];
               d.ownerId.Some? && pairs[p] == (d.id, characterById[d.ownerId.value]);
      assert Resolves(ids[i], droidById, characterById);
      DictionaryEntry(droids, droidById, OrElse(ids[i], ""));
    }
  }

  /**
   * The owner pairs follow the order of ids: the pairs of two runs of ids
   * are those of the first run followed by those of the second.
   */
  lemma {:induction false} OwnerPairsAppend(a: seq<Option<string>>, b: seq<Option<string>>,
                                            droidById: map<string, Character>, characterById: map<string, Character>)
    requires forall k | k in droidById :: droidById[k].Droid?
    requires OwnerPairs(a, droidById, characterById).Ok? && OwnerPairs(b, droidById, characterById).Ok?
    ensures OwnerPairs(a + b, droidById, characterById) ==
            Ok(OwnerPairs(a, droidById, characterById).value + OwnerPairs(b, droidById, characterById).value)
  {
    if a == [] {
      assert a + b == b;
      assert [] + OwnerPairs(b, droidById, characterById).value == OwnerPairs(b, droidById, characterById).value;
    } else {
      assert (a + b)[0] == a[0] && (a + b)[1..] == a[1..] + b;
      assert Resolves(a[0], droidById, characterById);
      assert OwnerPairs(a[1..], droidById, characterById).Ok? by {
        assert forall i | 0 <= i < |a[1..]| :: a[1..][i] == a[i + 1];
      }
      OwnerPairsAppend(a[1..], b, droidById, characterById);
      var d := droidById[OrElse(a[0], "")];
      if d.ownerId.Some? {
        var pa, pb := OwnerPairs(a[1..], droidById, characterById).value, OwnerPairs(b, droidById, characterById).value;
        assert [(d.id, characterById[d.ownerId.value])] + (pa + pb) == ([(d.id, characterById[d.ownerId.value])] + pa) + pb;
      }
    }
  }

  /** The pairs of one id: its droid with its owner, or none for a droid without owner. */
  lemma OwnerPairsOne(x: Option<string>, droidById: map<string, Character>, characterById: map<string, Character>)
    requires forall k | k in droidById :: droidById[k].Droid?
    requires Resolves(x, droidById, characterById)
    ensures var d := droidById[OrElse(x, "")];
            OwnerPairs([x], droidById, characterById) ==
            if d.ownerId.None? then Ok([]) else Ok([(d.id, characterById[d.ownerId.value])])
  {
    assert [x][1..] == [];
    var d := droidById[OrElse(x, "")];
    if d.ownerId.Some? {
      assert [(d.id, characterById[d.ownerId.value])] + [] == [(d.id, characterById[d.ownerId.value])];
    }
  }

  /** The friend pairs follow the order of the selected characters. */
  lemma {:induction false} FriendPairsAppend(all: seq<Character>, a: seq<Character>, b: seq<Character>)
    ensures FriendPairs(all, a + b) == FriendPairs(all, a) + FriendPairs(all, b)
  {
    if a == [] {
      assert a + b == b;
    } else {
      assert (a + b)[0] == a[0] && (a + b)[1..] == a[1..] + b;
      FriendPairsAppend(all, a[1..], b);
    }
  }

  /** One character's friends, under its key, come in the order of all. */
  lemma FriendPairsOne(all: seq<Character>, c: Character)
    ensures ValuesOf(FriendPairs(all, [c]), OrElse(c.id, "N/A")) == FriendsOf(all, c)
  {
    assert [c][1..] == [];
    var head := Keyed(OrElse(c.id, "N/A"), FriendsOf(all, c));
    assert FriendPairs(all, [c]) == head + [] == head;
    ValuesOfKeyed(OrElse(c.id, "N/A"), FriendsOf(all, c));
  }

  /** The values of pairs that all carry key k are the pairs' values, in order. */
  lemma {:induction false} ValuesOfKeyed(k: string, vs: seq<Character>)
    ensures ValuesOf(Keyed(k, vs), k) == vs
  {
    if vs != [] {
      ValuesOfKeyed(k, vs[1..]);
      assert Keyed(k, vs)[1..] == Keyed(k, vs[1..]);
      assert vs == [vs[0]] + vs[1..];
    }
  }

  /** The friends taken from two lists hold every copy either list holds of each friend. */
  lemma FriendsCount(humans: seq<Character>, droids: seq<Character>, c: Character)
    ensures forall x | IsFriend(c, x) ::
              multiset(Where(humans, FriendOf(c)) + Where(droids, FriendOf(c)))[x] == multiset(humans + droids)[x]
  {
    forall x | IsFriend(c, x)
      ensures multiset(Where(humans, FriendOf(c)) + Where(droids, FriendOf(c)))[x] == multiset(humans + droids)[x]
    {
      WhereCount(humans, FriendOf(c), x);
      WhereCount(droids, FriendOf(c), x);
    }
  }

  /** FirstOrDefault over a list with one element appended. */
  lemma {:induction false} FirstOrDefaultAppend<T>(s: seq<T>, x: T, p: T -> bool)
    ensures FirstOrDefault(s + [x], p) ==
            if FirstOrDefault(s, p).Some? || !p(x) then FirstOrDefault(s, p) else Some(x)
  {
    if s == [] {
      assert s + [x] == [x];
    } else {
      assert (s + [x])[0] == s[0] && (s + [x])[1..] == s[1..] + [x];
      FirstOrDefaultAppend(s[1..], x, p);
    }
  }

  /** The four seed ids differ. */
  lemma SeedIdsDiffer()
    ensures "1" != "2" && "1" != "3" && "1" != "4" && "2" != "3" && "2" != "4" && "3" != "4"
  {
    assert "1"[0] == '1' && "2"[0] == '2' && "3"[0] == '3' && "4"[0] == '4';
  }

  /** What GetHumanByIdAsync answers on the seeded store. */
  lemma SeedHumans(d: StarWarsData)
    requires d.humans == [Luke(), Vader()]
    ensures d.GetHumanById("1") == Some(Luke()) && d.GetHumanById("2") == Some(Vader())
    ensures d.GetHumanById("3") == None
  {
    SeedIdsDiffer();
    assert d.humans[1..] == [Vader()];
    assert FirstOrDefault(d.humans[1..], HasId("2")) == Some(Vader());
  }

  /** What GetDroidByIdAsync answers on the seeded store: a human's id finds no droid. */
  lemma SeedDroidLookups(d: StarWarsData)
    requires d.droids == [R2D2(), C3PO()]
    ensures d.GetDroidById("3") == Some(R2D2()) && d.GetDroidById("4") == Some(C3PO())
    ensures d.GetDroidById("1") == None
  {
    SeedIdsDiffer();
    assert d.droids[1..] == [C3PO()];
    assert FirstOrDefault(d.droids[1..], HasId("4")) == Some(C3PO());
  }

  /** Who among the seed characters Luke and R2-D2 list as friends. */
  lemma SeedFriendTests()
    ensures !IsFriend(Luke(), Luke()) && !IsFriend(Luke(), Vader()) && IsFriend(Luke(), R2D2()) && IsFriend(Luke(), C3PO())
    ensures IsFriend(R2D2(), Luke()) && !IsFriend(R2D2(), Vader()) && !IsFriend(R2D2(), R2D2()) && IsFriend(R2D2(), C3PO())
  {
    SeedIdsDiffer();
  }

  /** GetDroidsByIdsAsync on the seeded store keeps store order and drops repeated ids. */
  lemma SeedDroids(d: StarWarsData)
    requires d.droids == [R2D2(), C3PO()]
    ensures d.GetDroidsByIds([Some("4"), Some("3"), Some("3")]) == [R2D2(), C3PO()]
  {
    var ids := [Some("4"), Some("3"), Some("3")];
    assert d.droids[1..] == [C3PO()] && d.droids[1..][1..] == [];
    assert Requested(ids)(R2D2()) && Requested(ids)(C3PO());
    assert Where(d.droids[1..], Requested(ids)) == [C3PO()];
  }
  /** The seed droids have distinct keys. */
  lemma SeedDroidKeys()
    ensures ToDictionary([R2D2(), C3PO()]).Ok?
  {
    SeedIdsDiffer();
  }

  /** The seed characters have distinct keys. */
  lemma SeedCharacterKeys()
    ensures ToDictionary([Luke(), Vader(), R2D2(), C3PO()]).Ok?
  {
    SeedIdsDiffer();
    var all := [Luke(), Vader(), R2D2(), C3PO()];
    assert forall i | 0 <= i < 4 :: OrElse(all[i].id, "") == ["1", "2", "3", "4"][i];
  }

  /** The ids that are keys, Id ?? "", of the seed droids: "3" and "4". */
  lemma SeedDroidKeysKnown(x: Option<string>)
    ensures KnownDroid([R2D2(), C3PO()], x) <==> x == Some("3") || x == Some("4")
  {
    assert R2D2() in [R2D2(), C3PO()] && C3PO() in [R2D2(), C3PO()];
    if x.Some? && x.value == "" {
      assert x.value != "3" && x.value != "4" by { assert |x.value| == 0; }
    }
  }

  /** The owner of both seed droids, Luke, is stored. */
  lemma SeedOwnersStored()
    ensures OwnersStored([R2D2(), C3PO()], [Luke(), Vader(), R2D2(), C3PO()])
  {
    assert Luke() in [Luke(), Vader(), R2D2(), C3PO()];
  }

  /**
   * On a store whose keys are distinct and whose droids' owners are stored,
   * GetDroidOwnersByIdsAsync succeeds exactly when every requested id is a
   * droid's key.
   */
  lemma OwnersSucceed(d: StarWarsData, ids: seq<Option<string>>)
    requires d.Valid()
    requires ToDictionary(d.droids).Ok? && ToDictionary(d.humans + d.droids).Ok?
    requires OwnersStored(d.droids, d.humans + d.droids)
    ensures d.GetDroidOwnersByIds(ids).Ok? <==> forall i | 0 <= i < |ids| :: KnownDroid(d.droids, ids[i])
  {
  }

  /** The seeded store's droids and characters have distinct keys. */
  lemma SeedDictionaries(d: StarWarsData)
    requires d.humans == [Luke(), Vader()] && d.droids == [R2D2(), C3PO()]
    ensures ToDictionary(d.droids).Ok? && ToDictionary(d.humans + d.droids).Ok?
  {
    assert d.humans + d.droids == [Luke(), Vader(), R2D2(), C3PO()];
    SeedDroidKeys();
    SeedCharacterKeys();
  }

  /** The seeded store stores its droids' owner. */
  lemma SeedStored(d: StarWarsData)
    requires d.humans == [Luke(), Vader()] && d.droids == [R2D2(), C3PO()]
    ensures OwnersStored(d.droids, d.humans + d.droids)
  {
    assert d.humans + d.droids == [Luke(), Vader(), R2D2(), C3PO()];
    SeedOwnersStored();
  }

  /** The seeded store knows the droid ids "3" and "4" only. */
  lemma SeedKnown(d: StarWarsData)
    requires d.droids == [R2D2(), C3PO()]
    ensures forall x :: KnownDroid(d.droids, x) <==> x == Some("3") || x == Some("4")
  {
    forall x
      ensures KnownDroid(d.droids, x) <==> x == Some("3") || x == Some("4")
    {
      SeedDroidKeysKnown(x);
    }
  }

  /** When the droid keys are exactly "3" and "4", every requested id is known exactly when each is one of them. */
  lemma KnownSeedIds(droids: seq<Character>, ids: seq<Option<string>>)
    requires forall x :: KnownDroid(droids, x) <==> x == Some("3") || x == Some("4")
    ensures (forall i | 0 <= i < |ids| :: KnownDroid(droids, ids[i])) <==>
            (forall i | 0 <= i < |ids| :: ids[i] == Some("3") || ids[i] == Some("4"))
  {
  }

  /**
   * GetDroidOwnersByIdsAsync on the seeded store succeeds exactly when
   * every requested id is a droid's, "3" or "4": a human's id, an unknown id
   * or a null id raises.
   */
  lemma SeedOwners(d: StarWarsData, ids: seq<Option<string>>)
    requires d.humans == [Luke(), Vader()] && d.droids == [R2D2(), C3PO()]
    ensures d.Valid()
    ensures d.GetDroidOwnersByIds(ids).Ok? <==> forall i | 0 <= i < |ids| :: ids[i] == Some("3") || ids[i] == Some("4")
  {
    SeedDictionaries(d);
    SeedStored(d);
    SeedKnown(d);
    KnownSeedIds(d.droids, ids);
    OwnersSucceed(d, ids);
  }
}
