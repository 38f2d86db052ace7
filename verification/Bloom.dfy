/** Bloom filters, generic in the hash functions, and the worker that builds a pair of them. */
module Bloom {
  import opened Basics

  /** A filter: the bit positions of a name, and the bits that are set. */
  datatype Filter = Filter(hash: string -> set<nat>, bits: set<nat>)

  /** The hash functions a filter gets for its expected number of elements. */
  type Family = nat -> string -> set<nat>

  datatype Identifier = Identifier(nickname: string, email: Option<string>)

  predicate Contains(f: Filter, x: string) {
    f.hash(x) <= f.bits
  }

  function With(f: Filter, x: string): Filter {
    f.(bits := f.bits + f.hash(x))
  }

  function AddAll(f: Filter, names: seq<string>): Filter {
    if names == [] then f else With(AddAll(f, names[..|names| - 1]), names[|names| - 1])
  }

  /** A filter that has been added to still has what it had; a filter has everything that was added to it. */
  lemma {:induction false} NoFalseNegatives(f: Filter, names: seq<string>, x: string)
    ensures Contains(f, x) || x in names ==> Contains(AddAll(f, names), x)
  {
    if names != [] {
      var n := |names| - 1;
      NoFalseNegatives(f, names[..n], x);
      SameHash(f, names[..n]);
      assert names == names[..n] + [names[n]];
    }
  }

  lemma {:induction false} SameHash(f: Filter, names: seq<string>)
    ensures AddAll(f, names).hash == f.hash
  {
    if names != [] {
      SameHash(f, names[..|names| - 1]);
    }
  }

  /** The bits of some names. */
  ghost function Bits(hash: string -> set<nat>, names: set<string>): set<nat> {
    set n, b | n in names && b in hash(n) :: b
  }

  function NamesIn(names: seq<string>): set<string> {
    set n | n in names
  }

  lemma {:induction false} BitsOfOneMore(hash: string -> set<nat>, names: set<string>, x: string)
    ensures Bits(hash, names + {x}) == Bits(hash, names) + hash(x)
  {
    forall b | b in Bits(hash, names) + hash(x) ensures b in Bits(hash, names + {x}) {
      if b in hash(x) {
        assert x in names + {x};
      } else {
        var n :| n in names && b in hash(n);
        assert n in names + {x};
      }
    }
  }

  /** A filter has exactly the bits it had and those of the names added; so it answers yes exactly within them. */
  lemma {:induction false} AddAllBits(f: Filter, names: seq<string>)
    ensures AddAll(f, names).bits == f.bits + Bits(f.hash, NamesIn(names))
  {
    if names != [] {
      var n := |names| - 1;
      AddAllBits(f, names[..n]);
      SameHash(f, names[..n]);
      BitsOfOneMore(f.hash, NamesIn(names[..n]), names[n]);
      assert names == names[..n] + [names[n]];
      assert NamesIn(names) == NamesIn(names[..n]) + {names[n]};
    }
  }

  // ---------- The worker ----------

  function Nicknames(ids: seq<Identifier>): seq<string> {
    if ids == [] then [] else Nicknames(ids[..|ids| - 1]) + [ids[|ids| - 1].nickname]
  }

  function Emails(ids: seq<Identifier>): seq<string> {
    if ids == [] then []
    else
      var last := ids[|ids| - 1].email;
      Emails(ids[..|ids| - 1]) + if last.Some? then [last.value] else []
  }

  lemma {:induction false} ListedNames(ids: seq<Identifier>)
    ensures forall i | i in ids :: i.nickname in Nicknames(ids)
    ensures forall i | i in ids && i.email.Some? :: i.email.value in Emails(ids)
  {
    if ids != [] {
      ListedNames(ids[..|ids| - 1]);
      assert ids == ids[..|ids| - 1] + [ids[|ids| - 1]];
    }
  }

  /** Twice the number of names, and room for a thousand at least. */
  function Capacity(count: nat): nat {
    if 2 * count > 1000 then 2 * count else 1000
  }

  /** A filter sized for the names and holding them. */
  function Built(family: Family, names: seq<string>): Filter {
    AddAll(Filter(family(Capacity(|names|)), {}), names)
  }

  /** A built filter gets the hash functions for twice its names, or for a thousand where that is more. */
  lemma {:induction false} BuiltSize(family: Family, names: seq<string>)
    ensures exists c: nat :: c >= 1000 && c >= 2 * |names| && (c == 1000 || c == 2 * |names|)
                             && Built(family, names).hash == family(c)
  {
    SameHash(Filter(family(Capacity(|names|)), {}), names);
    var c := Capacity(|names|);
    assert c >= 1000 && c >= 2 * |names| && (c == 1000 || c == 2 * |names|) && Built(family, names).hash == family(c);
  }

  class BloomFilter {
    const hash: string -> set<nat>
    var bits: set<nat>

    constructor (hash: string -> set<nat>)
      ensures Value() == Filter(hash, {})
    {
      this.hash, this.bits := hash, {};
    }

    ghost function Value(): Filter
      reads this
    {
      Filter(hash, bits)
    }

    predicate Has(x: string)
      reads this
      ensures Has(x) <==> Contains(Value(), x)
    {
      hash(x) <= bits
    }

    method Add(x: string)
      modifies this
      ensures Value() == With(old(Value()), x)
    {
      bits := bits + hash(x);
    }
  }

  /** The worker's loop over the identifiers, filling both filters. */
  method BuildFilters(family: Family, ids: seq<Identifier>) returns (nicknames: BloomFilter, emails: BloomFilter)
    ensures fresh(nicknames) && fresh(emails) && nicknames != emails
    ensures nicknames.Value() == Built(family, Nicknames(ids))
    ensures emails.Value() == Built(family, Emails(ids))
  {
    CountNicknames(ids);
    nicknames := new BloomFilter(family(Capacity(|ids|)));
    emails := new BloomFilter(family(Capacity(|Emails(ids)|)));
    FillFilters(nicknames, emails, ids);
  }

  /** Adds every nickname to one filter and every email there is to the other. */
  method FillFilters(nicknames: BloomFilter, emails: BloomFilter, ids: seq<Identifier>)
    requires nicknames != emails
    modifies nicknames, emails
    ensures nicknames.Value() == AddAll(old(nicknames.Value()), Nicknames(ids))
    ensures emails.Value() == AddAll(old(emails.Value()), Emails(ids))
  {
    ghost var nicknames0, emails0 := nicknames.Value(), emails.Value();
    for i := 0 to |ids|
      invariant nicknames.Value() == AddAll(nicknames0, Nicknames(ids[..i]))
      invariant emails.Value() == AddAll(emails0, Emails(ids[..i]))
    {
      OneMoreIdentifier(ids, i, nicknames0, emails0);
      nicknames.Add(ids[i].nickname);
      if ids[i].email.Some? {
        emails.Add(ids[i].email.value);
      }
    }
    assert ids[..|ids|] == ids;
  }

  lemma {:induction false} OneMoreIdentifier(ids: seq<Identifier>, i: nat, nicknames: Filter, emails: Filter)
    requires i < |ids|
    ensures AddAll(nicknames, Nicknames(ids[..i + 1])) ==
            With(AddAll(nicknames, Nicknames(ids[..i])), ids[i].nickname)
    ensures AddAll(emails, Emails(ids[..i + 1])) ==
            match ids[i].email
            case None => AddAll(emails, Emails(ids[..i]))
            case Some(e) => With(AddAll(emails, Emails(ids[..i])), e)
  {
    assert ids[..i + 1][..i] == ids[..i];
    AddOne(nicknames, Nicknames(ids[..i]), ids[i].nickname);
    if ids[i].email.Some? {
      AddOne(emails, Emails(ids[..i]), ids[i].email.value);
    } else {
      assert Emails(ids[..i]) + [] == Emails(ids[..i]);
    }
  }

  lemma {:induction false} AddOne(f: Filter, names: seq<string>, x: string)
    ensures AddAll(f, names + [x]) == With(AddAll(f, names), x)
  {
    assert (names + [x])[..|names|] == names;
  }

  lemma {:induction false} CountNicknames(ids: seq<Identifier>)
    ensures |Nicknames(ids)| == |ids|
  {
    if ids != [] {
      CountNicknames(ids[..|ids| - 1]);
    }
  }
}
