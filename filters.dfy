/** The query shared by `index`, `gerarPdf`, `gerarCsv` and `gerarWord`: three
    optional request parameters combined into one conjunctive predicate over
    accounts, then an ORDER BY, then the sum of `valor` over the result. */
module Filters {
  import opened Wrappers
  import opened Accounts

  /** A date parameter as the request carries it: not sent, sent blank (empty or only
      whitespace, which `filled` rejects), or sent with a date. */
  datatype DateParam = Missing | Blank | Given(date: Date)

  /** The filter parameters. `nome` is Some exactly when the key is present (`has`),
      with "" for a key sent without a value. */
  datatype Request = Request(nome: Option<string>, dataInicio: DateParam, dataFim: DateParam)

  /** Laravel's `filled`: present and not blank. */
  predicate Filled(p: DateParam) {
    p.Given?
  }

  /** sub occurs somewhere in s: the model of `LIKE '%' . sub . '%'`. */
  predicate Contains(s: string, sub: string)
    decreases |s|
  {
    sub <= s || (s != [] && Contains(s[1..], sub))
  }

  /** sub is the slice of s that starts at index i. */
  predicate OccursAt(s: string, sub: string, i: int) {
    0 <= i && i + |sub| <= |s| && s[i..i + |sub|] == sub
  }

  /** Contains agrees with the direct definition: sub is the slice of s at some index. */
  lemma {:induction false} ContainsAt(s: string, sub: string)
    ensures Contains(s, sub) <==> exists i :: OccursAt(s, sub, i)
    decreases |s|
  {
    var n := |sub|;
    if s == [] {
      if sub == [] { assert OccursAt(s, sub, 0); }
    } else {
      ContainsAt(s[1..], sub);
      if Contains(s, sub) {
        if sub <= s {
          assert OccursAt(s, sub, 0);
        } else {
          var i :| OccursAt(s[1..], sub, i);
          assert s[1..][i..i + n] == s[i + 1..i + 1 + n];
          assert OccursAt(s, sub, i + 1);
        }
      }
      if exists i :: OccursAt(s, sub, i) {
        var i :| OccursAt(s, sub, i);
        if i == 0 {
          assert sub <= s;
        } else {
          assert s[1..][i - 1..i - 1 + n] == s[i..i + n];
          assert OccursAt(s[1..], sub, i - 1);
        }
      }
    }
  }

  /** The conjunction of the three `when` clauses. */
  predicate Matches(req: Request, c: Conta) {
    (req.nome.Some? ==> Contains(c.nome, req.nome.value)) &&
    (Filled(req.dataInicio) ==> DateLe(req.dataInicio.date, c.vencimento)) &&
    (Filled(req.dataFim) ==> DateLe(c.vencimento, req.dataFim.date))
  }

  /** The accounts of the store that satisfy the request, in store order. */
  function Filter(req: Request, store: seq<Conta>): (r: seq<Conta>)
    ensures |r| <= |store|
    ensures forall c :: c in r ==> c in store && Matches(req, c)
  {
    if store == [] then []
    else (if Matches(req, store[0]) then [store[0]] else []) + Filter(req, store[1..])
  }

  lemma {:induction false} FilterConcat(req: Request, a: seq<Conta>, b: seq<Conta>)
    ensures Filter(req, a + b) == Filter(req, a) + Filter(req, b)
  {
    if a == [] {
      assert a + b == b;
    } else {
      var ab := a + b;
      assert ab[0] == a[0] && ab[1..] == a[1..] + b;
      FilterConcat(req, a[1..], b);
      assert Filter(req, ab) == (if Matches(req, a[0]) then [a[0]] else []) + Filter(req, ab[1..]);
    }
  }

  /** The filter keeps every matching account as often as the store holds it and drops
      every other one: the result is a sub-multiset of the store. */
  lemma {:induction false} FilterCounts(req: Request, store: seq<Conta>, c: Conta)
    ensures multiset(Filter(req, store))[c] == if Matches(req, c) then multiset(store)[c] else 0
  {
    if store != [] {
      FilterCounts(req, store[1..], c);
      assert store == [store[0]] + store[1..];
    }
  }

  /** An account is in the filtered result if and only if it is in the store and
      satisfies the request. */
  lemma KeptExactly(req: Request, store: seq<Conta>, c: Conta)
    ensures c in Filter(req, store) <==> c in store && Matches(req, c)
  {
    FilterCounts(req, store, c);
  }

  /** Every kept account lies within the filled date bounds, inclusive on both ends. */
  lemma KeptWithinBounds(req: Request, store: seq<Conta>, c: Conta)
    requires c in Filter(req, store)
    ensures req.dataInicio.Given? ==> DateLe(req.dataInicio.date, c.vencimento)
    ensures req.dataFim.Given? ==> DateLe(c.vencimento, req.dataFim.date)
    ensures req.nome.Some? ==> Contains(c.nome, req.nome.value)
  {
  }

  /** weak imposes no filter that strong does not impose as well: each of its
      parameters is absent, unfilled, or equal to strong's. */
  predicate Relaxes(weak: Request, strong: Request) {
    (weak.nome.None? || weak.nome == strong.nome) &&
    (!Filled(weak.dataInicio) || weak.dataInicio == strong.dataInicio) &&
    (!Filled(weak.dataFim) || weak.dataFim == strong.dataFim)
  }

  /** Dropping a filter, or leaving a bound unfilled, removes none of the accounts the
      remaining filters keep. */
  lemma RelaxedKeepsMore(weak: Request, strong: Request, store: seq<Conta>)
    requires Relaxes(weak, strong)
    ensures multiset(Filter(strong, store)) <= multiset(Filter(weak, store))
  {
    forall c
      ensures multiset(Filter(strong, store))[c] <= multiset(Filter(weak, store))[c]
    {
      FilterCounts(strong, store, c);
      FilterCounts(weak, store, c);
    }
  }

  /** A present but empty `nome` ('%' . '' . '%') and unfilled dates keep the whole
      store, in order. */
  lemma {:induction false} EmptyNameKeepsAll(req: Request, store: seq<Conta>)
    requires req.nome == Some("") || req.nome.None?
    requires !Filled(req.dataInicio) && !Filled(req.dataFim)
    ensures Filter(req, store) == store
  {
    if store != [] {
      assert [] <= store[0].nome;
      EmptyNameKeepsAll(req, store[1..]);
      assert store == [store[0]] + store[1..];
    }
  }

  function NameOnly(req: Request): Request {
    Request(req.nome, Missing, Missing)
  }

  function StartOnly(req: Request): Request {
    Request(None, req.dataInicio, Missing)
  }

  function EndOnly(req: Request): Request {
    Request(None, Missing, req.dataFim)
  }

  /** Filtering by q and then by p keeps what r keeps when r is the conjunction of
      p and q. */
  lemma {:induction false} FilterTwice(p: Request, q: Request, r: Request, store: seq<Conta>)
    requires forall c :: Matches(r, c) <==> Matches(p, c) && Matches(q, c)
    ensures Filter(p, Filter(q, store)) == Filter(r, store)
  {
    if store != [] {
      var x := store[0];
      var head := if Matches(q, x) then [x] else [];
      FilterConcat(p, head, Filter(q, store[1..]));
      assert Filter(p, head) == if Matches(r, x) then [x] else [] by {
        if head != [] {
          assert head[1..] == [];
        }
      }
      FilterTwice(p, q, r, store[1..]);
    }
  }

  /** The query builder chains one `when` per parameter; applying the three filters one
      after the other is the same as applying their conjunction. */
  lemma FiltersCompose(req: Request, store: seq<Conta>)
    ensures Filter(NameOnly(req), Filter(StartOnly(req), Filter(EndOnly(req), store))) == Filter(req, store)
  {
    var dates := Request(None, req.dataInicio, req.dataFim);
    FilterTwice(StartOnly(req), EndOnly(req), dates, store);
    FilterTwice(NameOnly(req), dates, req, store);
  }

  /** The two orders of the controller: `orderBy('vencimento')` for the CSV and Word
      exports, `orderByDesc('created_at')` for the listing and the PDF. */
  datatype Order = VencimentoAsc | CreatedAtDesc

  /** a may come before b in order o. */
  predicate Precedes(o: Order, a: Conta, b: Conta) {
    match o
    case VencimentoAsc => DateLe(a.vencimento, b.vencimento)
    case CreatedAtDesc => a.createdAt >= b.createdAt
  }

  predicate Sorted(o: Order, s: seq<Conta>) {
    forall i, j :: 0 <= i < j < |s| ==> Precedes(o, s[i], s[j])
  }

  /** Inserts x into a sorted sequence before the first element it may precede. */
  function Insert(o: Order, x: Conta, s: seq<Conta>): (r: seq<Conta>)
    requires Sorted(o, s)
    ensures Sorted(o, r)
    ensures multiset(r) == multiset(s) + multiset{x}
  {
    if s == [] || Precedes(o, x, s[0]) then [x] + s
    else
      var tail := Insert(o, x, s[1..]);
      InsertStep(o, x, s, tail);
      [s[0]] + tail
  }

  lemma PrecedesTotal(o: Order, a: Conta, b: Conta)
    ensures Precedes(o, a, b) || Precedes(o, b, a)
  {
  }

  /** Putting the head of a sorted sequence in front of the insertion into its tail
      keeps the result sorted when x may not precede that head. */
  lemma InsertStep(o: Order, x: Conta, s: seq<Conta>, tail: seq<Conta>)
    requires s != [] && Sorted(o, s) && !Precedes(o, x, s[0])
    requires Sorted(o, tail) && multiset(tail) == multiset(s[1..]) + multiset{x}
    ensures Sorted(o, [s[0]] + tail)
    ensures multiset([s[0]] + tail) == multiset(s) + multiset{x}
  {
    var h := s[0];
    assert s == [h] + s[1..];
    forall j | 0 <= j < |tail| ensures Precedes(o, h, tail[j]) {
      assert tail[j] in multiset(tail);
      if tail[j] == x {
        PrecedesTotal(o, x, h);
      } else {
        assert tail[j] in multiset(s[1..]);
        var k :| 1 <= k < |s| && s[k] == tail[j];
      }
    }
    var r := [h] + tail;
    forall i, j | 0 <= i < j < |r| ensures Precedes(o, r[i], r[j]) {
      if i > 0 {
        assert r[i] == tail[i - 1] && r[j] == tail[j - 1];
      } else {
        assert r[j] == tail[j - 1];
      }
    }
  }

  /** An ORDER BY over the key of o (ties are kept in input order here; the database
      may order them otherwise). */
  function Sort(o: Order, s: seq<Conta>): (r: seq<Conta>)
    ensures Sorted(o, r)
    ensures multiset(r) == multiset(s)
  {
    if s == [] then []
    else
      assert s == [s[0]] + s[1..];
      Insert(o, s[0], Sort(o, s[1..]))
  }

  /** The query: the accounts matching the request, ordered by o. */
  function Query(req: Request, store: seq<Conta>, o: Order): (r: seq<Conta>)
    ensures Sorted(o, r)
    ensures multiset(r) == multiset(Filter(req, store))
    ensures forall c :: c in r <==> c in store && Matches(req, c)
  {
    var r := Sort(o, Filter(req, store));
    assert forall c :: c in r <==> c in Filter(req, store) by {
      forall c ensures c in r <==> c in Filter(req, store) {
        assert c in r <==> c in multiset(r);
      }
    }
    forall c ensures c in Filter(req, store) <==> c in store && Matches(req, c) {
      KeptExactly(req, store, c);
    }
    r
  }

  /** `$contas->sum('valor')`, in cents. */
  function Total(s: seq<Conta>): nat {
    if s == [] then 0 else s[0].valor + Total(s[1..])
  }

  /** The sum of `valor` over the accounts of the store that match the request, taken
      in store order: the reference the exported totals are compared with. */
  function TotalWhere(req: Request, store: seq<Conta>): nat {
    if store == [] then 0
    else (if Matches(req, store[0]) then store[0].valor else 0) + TotalWhere(req, store[1..])
  }

  lemma {:induction false} TotalConcat(a: seq<Conta>, b: seq<Conta>)
    ensures Total(a + b) == Total(a) + Total(b)
  {
    if a == [] {
      assert a + b == b;
    } else {
      assert (a + b)[0] == a[0] && (a + b)[1..] == a[1..] + b;
      TotalConcat(a[1..], b);
    }
  }

  /** The sequence without the first occurrence of x. */
  function RemoveFirst(t: seq<Conta>, x: Conta): seq<Conta>
    requires x in t
  {
    if t[0] == x then t[1..] else [t[0]] + RemoveFirst(t[1..], x)
  }

  /** Taking one account out of a sequence takes its amount out of the total and the
      account out of the multiset. */
  lemma {:induction false} RemoveFirstTotal(t: seq<Conta>, x: Conta)
    requires x in t
    ensures Total(t) == x.valor + Total(RemoveFirst(t, x))
    ensures multiset(RemoveFirst(t, x)) == multiset(t) - multiset{x}
  {
    assert t == [t[0]] + t[1..];
    assert multiset(t) == multiset{t[0]} + multiset(t[1..]);
    if t[0] != x {
      var rest := RemoveFirst(t[1..], x);
      RemoveFirstTotal(t[1..], x);
      var r := [t[0]] + rest;
      assert r[0] == t[0] && r[1..] == rest;
      assert Total(r) == t[0].valor + Total(rest);
      assert multiset(r) == multiset{t[0]} + multiset(rest);
    }
  }

  /** The total does not depend on the order of the accounts. */
  lemma {:induction false} TotalPermutation(s: seq<Conta>, t: seq<Conta>)
    requires multiset(s) == multiset(t)
    ensures Total(s) == Total(t)
    decreases |s|
  {
    if s != [] {
      var x := s[0];
      assert x in multiset(t);
      RemoveFirstTotal(t, x);
      assert s == [x] + s[1..];
      assert multiset(s[1..]) == multiset(s) - multiset{x};
      TotalPermutation(s[1..], RemoveFirst(t, x));
    } else {
      assert t == [];
    }
  }

  lemma {:induction false} TotalOfFilter(req: Request, store: seq<Conta>)
    ensures Total(Filter(req, store)) == TotalWhere(req, store)
  {
    if store != [] {
      var head := if Matches(req, store[0]) then [store[0]] else [];
      TotalConcat(head, Filter(req, store[1..]));
      TotalOfFilter(req, store[1..]);
    }
  }

  /** The total of every export is the sum of `valor` over exactly the matching
      accounts, whichever order the export uses. */
  lemma QueryTotal(req: Request, store: seq<Conta>, o: Order)
    ensures Total(Query(req, store, o)) == TotalWhere(req, store)
  {
    TotalPermutation(Query(req, store, o), Filter(req, store));
    TotalOfFilter(req, store);
  }
}
