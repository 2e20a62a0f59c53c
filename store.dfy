/** The index lifecycle run at start-up, over an abstract store: the store
    holds hashes (a field map per key) and search-index definitions by name.
    `EnsureIndexExists` creates `idx:all` only when probing for it fails,
    and on both paths re-writes the stored records unchanged (the "touch"
    that makes the engine index them), counting them. The records touched
    are those whose keys match `Tweet :*`, `Spaces :*` and
    `discord_message :*`, with a space before the colon, while the index
    covers keys starting with `Tweet:`, `Spaces:` and `discord_message:`:
    the model keeps both spellings as they are. */
module IndexManager {
  import opened Schema
  import Glob

  type Hash = map<string, string>

  /** The patterns whose keys the touch enumerates, in enumeration order. */
  const TWEET_PATTERN: string := "Tweet :*"
  const SPACES_PATTERN: string := "Spaces :*"
  const DISCORD_PATTERN: string := "discord_message :*"

  /** True when `k` starts with `Tweet :`, `Spaces :` or
      `discord_message :`, with the space before the colon. */
  predicate SpacedPrefix(k: string)
  {
    "Tweet :" <= k || "Spaces :" <= k || "discord_message :" <= k
  }

  /** Keys of `h` matching one of the three touch patterns: those with a
      spaced prefix. */
  ghost function Enumerated(h: map<string, Hash>): (e: set<string>)
    ensures forall k :: k in e <==> k in h && SpacedPrefix(k)
  {
    AllPatternsArePrefixes();
    set k | k in h && (Glob.Match(TWEET_PATTERN, k) || Glob.Match(SPACES_PATTERN, k) ||
                       Glob.Match(DISCORD_PATTERN, k))
  }

  /** The index map after `EnsureIndexExists`: an existing `idx:all` is
      kept as it is, whatever its definition; a missing one is created. */
  function Ensured(indexes: map<string, IndexDefinition>): (m: map<string, IndexDefinition>)
    ensures m.Keys == indexes.Keys + {INDEX_NAME}
    ensures forall n :: n in indexes ==> m[n] == indexes[n]
    ensures INDEX_NAME !in indexes ==> m[INDEX_NAME] == ALL_INDEX
  {
    if INDEX_NAME in indexes then indexes else indexes[INDEX_NAME := ALL_INDEX]
  }

  predicate NoDuplicates(s: seq<string>)
  {
    forall i, j :: 0 <= i < j < |s| ==> s[i] != s[j]
  }

  class Store {
    /** The stored hashes, by key. */
    var hashes: map<string, Hash>
    /** The search indexes, by name. */
    var indexes: map<string, IndexDefinition>
    /** The keys written by HSET so far, in order. */
    ghost var written: seq<string>

    /** The store never holds an empty hash: removing a hash's last field
        removes the key. */
    ghost predicate Valid()
      reads this
    {
      forall k :: k in hashes ==> hashes[k] != map[]
    }

    constructor (hashes: map<string, Hash>, indexes: map<string, IndexDefinition>)
      requires forall k :: k in hashes ==> hashes[k] != map[]
      ensures Valid()
      ensures this.hashes == hashes && this.indexes == indexes && written == []
    {
      this.hashes := hashes;
      this.indexes := indexes;
      written := [];
    }

    /** Asking for an index's description: it succeeds exactly when the
        index exists (otherwise the store answers with an error). */
    method Probe(name: string) returns (found: bool)
      ensures found <==> name in indexes
    {
      found := name in indexes;
    }

    /** Creating an index: refused when the name is taken. */
    method CreateIndex(name: string, def: IndexDefinition) returns (ok: bool)
      modifies this
      ensures ok <==> name !in old(indexes)
      ensures indexes == if ok then old(indexes)[name := def] else old(indexes)
      ensures hashes == old(hashes) && written == old(written)
    {
      ok := name !in indexes;
      if ok {
        indexes := indexes[name := def];
      }
    }

    /** KEYS: every stored key matching the pattern, each once, in no
        particular order. */
    method Keys(pattern: string) returns (keys: seq<string>)
      ensures NoDuplicates(keys)
      ensures forall k :: k in keys <==> k in hashes && Glob.Match(pattern, k)
    {
      keys := [];
      var rest := hashes.Keys;
      while rest != {}
        invariant rest <= hashes.Keys
        invariant NoDuplicates(keys)
        invariant forall k :: k in keys <==> k in hashes && k !in rest && Glob.Match(pattern, k)
        decreases rest
      {
        var k :| k in rest;
        if Glob.Match(pattern, k) {
          keys := keys + [k];
        }
        rest := rest - {k};
      }
    }

    /** HGETALL: the hash stored under `key`, or no fields when there is
        none. */
    method GetAll(key: string) returns (h: Hash)
      ensures key in hashes ==> h == hashes[key]
      ensures key !in hashes ==> h == map[]
    {
      h := if key in hashes then hashes[key] else map[];
    }

    /** HSET with a mapping: the given fields are written over the stored
        hash, other fields kept; an empty mapping is refused. */
    method SetAll(key: string, mapping: Hash) returns (ok: bool)
      requires Valid()
      modifies this
      ensures Valid()
      ensures ok <==> mapping != map[]
      ensures hashes == if !ok then old(hashes)
                        else if key in old(hashes) then old(hashes)[key := old(hashes)[key] + mapping]
                        else old(hashes)[key := mapping]
      ensures indexes == old(indexes)
      ensures written == if ok then old(written) + [key] else old(written)
    {
      ok := mapping != map[];
      if ok {
        hashes := hashes[key := if key in hashes then hashes[key] + mapping else mapping];
        written := written + [key];
      }
    }

    /** One step of the touch: HGETALL then HSET of what was read. */
    method Touch(key: string)
      requires Valid() && key in hashes
      modifies this
      ensures Valid()
      ensures hashes == old(hashes) && indexes == old(indexes)
      ensures written == old(written) + [key]
    {
      var doc := GetAll(key);
      var ok := SetAll(key, doc);
      assert ok;
      assert doc + doc == doc;
    }

    /** The keys the touch visits: the answers of KEYS for the three
        patterns, in turn. Each enumerated key is listed once, and no
        other; none starts with `Tweet:`, `Spaces:` or `discord_message:`,
        the prefixes `idx:all` is created with. */
    method Enumerate() returns (keys: seq<string>)
      ensures NoDuplicates(keys)
      ensures forall k :: k in keys <==> k in Enumerated(hashes)
      ensures forall k :: k in keys ==> !Covers(ALL_INDEX, k)
      ensures |keys| == |Enumerated(hashes)|
    {
      var tweets := Keys(TWEET_PATTERN);
      var spaces := Keys(SPACES_PATTERN);
      var discord := Keys(DISCORD_PATTERN);
      keys := tweets + spaces + discord;
      EnumerationIsExact(hashes, tweets, spaces, discord);
      EnumeratedOutsideIndex(hashes, keys);
    }

    /** The touch: every record under the three patterns is read and written
        back as read. Each enumerated key is written exactly once, and no
        other; none of them starts with a prefix `idx:all` is created with. Nothing in
        the store changes, and the count is the number of keys written. */
    method IndexDocuments() returns (count: nat)
      requires Valid()
      modifies this
      ensures Valid()
      ensures hashes == old(hashes) && indexes == old(indexes)
      ensures |old(written)| <= |written| && written[..|old(written)|] == old(written)
      ensures NoDuplicates(written[|old(written)|..])
      ensures forall k :: k in written[|old(written)|..] <==> k in Enumerated(hashes)
      ensures forall k :: k in written[|old(written)|..] ==> !Covers(ALL_INDEX, k)
      ensures count == |written| - |old(written)| == |Enumerated(hashes)|
    {
      var keys := Enumerate();
      count := 0;
      for i := 0 to |keys|
        invariant Valid()
        invariant hashes == old(hashes) && indexes == old(indexes)
        invariant written == old(written) + keys[..i]
        invariant count == i
      {
        Touch(keys[i]);
        assert keys[..i + 1] == keys[..i] + [keys[i]];
        count := count + 1;
      }
      assert keys[..|keys|] == keys;
      assert written[|old(written)|..] == keys;
    }

    /** Start-up: create `idx:all` if probing for it fails, then run the
        touch on both paths. */
    method EnsureIndexExists() returns (created: bool, count: nat)
      requires Valid()
      modifies this
      ensures Valid()
      ensures created <==> INDEX_NAME !in old(indexes)
      ensures indexes == Ensured(old(indexes))
      ensures hashes == old(hashes)
      ensures |old(written)| <= |written| && written[..|old(written)|] == old(written)
      ensures NoDuplicates(written[|old(written)|..])
      ensures forall k :: k in written[|old(written)|..] <==> k in Enumerated(hashes)
      ensures forall k :: k in written[|old(written)|..] ==> !Covers(ALL_INDEX, k)
      ensures count == |written| - |old(written)| == |Enumerated(hashes)|
      ensures created ==> forall k :: k in written[|old(written)|..] ==> !Covers(indexes[INDEX_NAME], k)
    {
      var exists_ := Probe(INDEX_NAME);
      created := false;
      if !exists_ {
        created := CreateIndex(INDEX_NAME, ALL_INDEX);
      }
      count := IndexDocuments();
    }
  }

  // ---------------------------------------------------------------------
  // Properties of the touch and of start-up.

  /** Each touch pattern is a plain prefix test. */
  lemma PatternsArePrefixes(k: string)
    ensures Glob.Match(TWEET_PATTERN, k) <==> "Tweet :" <= k
    ensures Glob.Match(SPACES_PATTERN, k) <==> "Spaces :" <= k
    ensures Glob.Match(DISCORD_PATTERN, k) <==> "discord_message :" <= k
  {
    assert TWEET_PATTERN == "Tweet :" + "*";
    assert SPACES_PATTERN == "Spaces :" + "*";
    assert DISCORD_PATTERN == "discord_message :" + "*";
    Glob.LiteralStarIsPrefix("Tweet :", k);
    Glob.LiteralStarIsPrefix("Spaces :", k);
    Glob.LiteralStarIsPrefix("discord_message :", k);
  }

  lemma AllPatternsArePrefixes()
    ensures forall k :: Glob.Match(TWEET_PATTERN, k) <==> "Tweet :" <= k
    ensures forall k :: Glob.Match(SPACES_PATTERN, k) <==> "Spaces :" <= k
    ensures forall k :: Glob.Match(DISCORD_PATTERN, k) <==> "discord_message :" <= k
  {
    forall k ensures Glob.Match(TWEET_PATTERN, k) <==> "Tweet :" <= k {
      PatternsArePrefixes(k);
    }
    forall k ensures Glob.Match(SPACES_PATTERN, k) <==> "Spaces :" <= k {
      PatternsArePrefixes(k);
    }
    forall k ensures Glob.Match(DISCORD_PATTERN, k) <==> "discord_message :" <= k {
      PatternsArePrefixes(k);
    }
  }

  /** No key matches two of the touch patterns. */
  lemma PatternsDisjoint(k: string)
    ensures !(Glob.Match(TWEET_PATTERN, k) && Glob.Match(SPACES_PATTERN, k))
    ensures !(Glob.Match(TWEET_PATTERN, k) && Glob.Match(DISCORD_PATTERN, k))
    ensures !(Glob.Match(SPACES_PATTERN, k) && Glob.Match(DISCORD_PATTERN, k))
  {
    PatternsArePrefixes(k);
    if "Tweet :" <= k { assert k[0] == 'T'; }
    if "Spaces :" <= k { assert k[0] == 'S'; }
  }

  /** A list without repeats has as many elements as its set. */
  lemma {:induction false} DistinctCardinality(s: seq<string>)
    requires NoDuplicates(s)
    ensures |set x | x in s| == |s|
  {
    if s != [] {
      var rest := s[1..];
      assert NoDuplicates(rest) by {
        forall i, j | 0 <= i < j < |rest| ensures rest[i] != rest[j] {
          assert rest[i] == s[i + 1] && rest[j] == s[j + 1];
        }
      }
      DistinctCardinality(rest);
      assert s[0] !in rest by {
        forall i | 0 <= i < |rest| ensures rest[i] != s[0] {
          assert rest[i] == s[i + 1];
        }
      }
      assert (set x | x in s) == (set x | x in rest) + {s[0]} by {
        forall x ensures x in s <==> x in rest || x == s[0] {
          if x in s && x != s[0] {
            var i :| 0 <= i < |s| && s[i] == x;
            assert rest[i - 1] == x;
          }
        }
      }
    }
  }

  /** Two lists without repeats and with no key in common concatenate to
      a list without repeats. */
  lemma NoDuplicatesConcat(a: seq<string>, b: seq<string>)
    requires NoDuplicates(a) && NoDuplicates(b)
    requires forall k :: k in a ==> k !in b
    ensures NoDuplicates(a + b)
  {
    var c := a + b;
    forall i, j | 0 <= i < j < |c| ensures c[i] != c[j] {
      if j < |a| {
        assert c[i] == a[i] && c[j] == a[j];
      } else if i >= |a| {
        assert c[i] == b[i - |a|] && c[j] == b[j - |a|];
      } else {
        assert c[i] in a && c[j] == b[j - |a|];
      }
    }
  }

  /** The concatenated KEYS answers list every enumerated key exactly once. */
  lemma EnumerationIsExact(h: map<string, Hash>, tweets: seq<string>, spaces: seq<string>, discord: seq<string>)
    requires NoDuplicates(tweets) && NoDuplicates(spaces) && NoDuplicates(discord)
    requires forall k :: k in tweets <==> k in h && Glob.Match(TWEET_PATTERN, k)
    requires forall k :: k in spaces <==> k in h && Glob.Match(SPACES_PATTERN, k)
    requires forall k :: k in discord <==> k in h && Glob.Match(DISCORD_PATTERN, k)
    ensures NoDuplicates(tweets + spaces + discord)
    ensures forall k :: k in tweets + spaces + discord <==> k in Enumerated(h)
    ensures |tweets + spaces + discord| == |Enumerated(h)|
  {
    var keys := tweets + spaces + discord;
    forall k | k in tweets ensures k !in spaces + discord {
      PatternsDisjoint(k);
    }
    NoDuplicatesConcat(tweets, spaces + discord) by {
      forall k | k in spaces ensures k !in discord {
        PatternsDisjoint(k);
      }
      NoDuplicatesConcat(spaces, discord);
    }
    assert keys == tweets + (spaces + discord);
    assert (set x | x in keys) == Enumerated(h);
    DistinctCardinality(keys);
  }

  /** No key the touch enumerates is covered by the index it creates: the
      space before the colon puts every such key outside all three index
      prefixes. */
  lemma TouchMissesIndex(h: map<string, Hash>, k: string)
    requires k in Enumerated(h)
    ensures !Covers(ALL_INDEX, k)
  {
    AllIndexCovers(k);
    PatternsArePrefixes(k);
    if "Tweet :" <= k { assert k[0] == 'T' && k[5] == ' '; }
    if "Spaces :" <= k { assert k[0] == 'S' && k[6] == ' '; }
    if "discord_message :" <= k { assert k[0] == 'd' && k[15] == ' '; }
  }

  /** The keys of a list that holds exactly the enumerated keys all lie
      outside the created index. */
  lemma EnumeratedOutsideIndex(h: map<string, Hash>, keys: seq<string>)
    requires forall k :: k in keys <==> k in Enumerated(h)
    ensures forall k :: k in keys ==> !Covers(ALL_INDEX, k)
  {
    forall k | k in keys ensures !Covers(ALL_INDEX, k) {
      TouchMissesIndex(h, k);
    }
  }

  /** After start-up `idx:all` exists; a second start-up finds it and
      changes no index. An existing definition is never replaced. */
  lemma EnsuredIdempotent(indexes: map<string, IndexDefinition>)
    ensures INDEX_NAME in Ensured(indexes)
    ensures Ensured(Ensured(indexes)) == Ensured(indexes)
    ensures INDEX_NAME in indexes ==> Ensured(indexes) == indexes
    ensures INDEX_NAME !in indexes ==> Ensured(indexes)[INDEX_NAME] == ALL_INDEX
    ensures forall n :: n in indexes ==> n in Ensured(indexes) && Ensured(indexes)[n] == indexes[n]
  {
  }

  /** Two start-ups in a row: the second creates nothing, and neither
      changes a record; both touch the same number of records. */
  method StartTwice(s: Store) returns (first: bool, second: bool, n1: nat, n2: nat)
    requires s.Valid()
    modifies s
    ensures s.Valid()
    ensures !second
    ensures s.hashes == old(s.hashes)
    ensures s.indexes == Ensured(old(s.indexes))
    ensures n1 == n2
  {
    first, n1 := s.EnsureIndexExists();
    second, n2 := s.EnsureIndexExists();
    EnsuredIdempotent(old(s.indexes));
  }
}
