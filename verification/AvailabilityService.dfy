/** The availability service: two filters that are added to in place and replaced by rebuilds. */
module AvailabilityService {
  import opened Basics
  import opened Bloom
  import opened NicknameCandidates
  import opened Availability

  /** What a nickname search has come to. */
  datatype Search = NoBasis | Found(nickname: string, counter: nat) | GoesOn

  class AvailabilityService {
    const family: Family
    var nicknameFilter: BloomFilter
    var emailFilter: BloomFilter

    ghost predicate Valid()
      reads this
    {
      nicknameFilter != emailFilter
    }

    ghost function State(): Filters
      reads this, nicknameFilter, emailFilter
    {
      Filters(nicknameFilter.Value(), emailFilter.Value())
    }

    /** Module start runs one rebuild. */
    constructor (family: Family, ids: seq<Identifier>)
      ensures Valid() && this.family == family && State() == Rebuilt(family, ids)
      ensures fresh(nicknameFilter) && fresh(emailFilter)
    {
      this.family := family;
      var nicknames, emails := BuildFilters(family, ids);
      nicknameFilter, emailFilter := nicknames, emails;
    }

    /** The worker's filters for the listed identifiers replace both filters. */
    method Rebuild(ids: seq<Identifier>)
      modifies this
      ensures Valid() && State() == Rebuilt(family, ids)
      ensures fresh(nicknameFilter) && fresh(emailFilter)
    {
      nicknameFilter, emailFilter := BuildFilters(family, ids);
    }

    /** The handler of both user events. */
    method OnUserEvent(nickname: string, email: Option<string>)
      requires Valid()
      modifies nicknameFilter, emailFilter
      ensures State() == AddUserIdentifiers(old(State()), nickname, email)
    {
      nicknameFilter.Add(nickname);
      if email.Some? && email.value != "" {
        emailFilter.Add(email.value);
      }
    }

    predicate HasNickname(nickname: string)
      reads this, nicknameFilter
      ensures HasNickname(nickname) <==> Contains(nicknameFilter.Value(), nickname)
    {
      nicknameFilter.Has(nickname)
    }

    /**
     The lower-cased basis if the filter calls it free, otherwise the basis with the smallest counter from 1 on that the
     filter calls free. A filter may call everything taken, and then the loop does not end; so the search is watched
     for a number of counters, and still goes on then exactly when all candidates up to there are taken. With n names in
     a filter that makes no mistake, n counters are enough.
     */
    method CreateNickname(basis: Option<string>, lower: string -> string, patience: nat) returns (r: Search)
      ensures r.NoBasis? <==> basis.None?
      ensures r.Found? ==>
                && r.nickname == Candidate(lower(basis.value), r.counter)
                && Suggests(nicknameFilter.Value(), lower(basis.value), r.counter)
      ensures basis.Some? ==>
                (r.GoesOn? <==> forall k: nat | k <= patience :: HasNickname(Candidate(lower(basis.value), k)))
      ensures forall names: set<string> |
                basis.Some? && Holds(nicknameFilter.Value(), names) && |names| <= patience ::
                r.Found? && r.counter <= |names|
    {
      if basis.None? {
        return NoBasis;
      }
      var lowerCased := lower(basis.value);
      forall names: set<string> | Holds(nicknameFilter.Value(), names)
        ensures exists k: nat :: k <= |names| && Suggests(nicknameFilter.Value(), lowerCased, k)
      {
        var k := SuggestedWithin(nicknameFilter.Value(), names, lowerCased);
      }
      if !HasNickname(lowerCased) {
        assert Candidate(lowerCased, 0) == lowerCased;
        return Found(lowerCased, 0);
      }
      var counter := 1;
      while counter <= patience && HasNickname(lowerCased + Decimal(counter))
        invariant 1 <= counter <= patience + 1
        invariant forall k: nat | k < counter :: HasNickname(Candidate(lowerCased, k))
        decreases patience - counter
      {
        assert Candidate(lowerCased, counter) == lowerCased + Decimal(counter);
        counter := counter + 1;
      }
      if counter > patience {
        return GoesOn;
      }
      assert Candidate(lowerCased, counter) == lowerCased + Decimal(counter);
      return Found(lowerCased + Decimal(counter), counter);
    }
  }
}
