/**
 * `selecionarPessoasPorIdade`: the people whose age is at least the given
 * one, ascending by age (`SELECT … where idade >= x order by idade`). The
 * table is the sequence of its rows in scan order. The database does not fix
 * the order among people of equal age, so the specification allows any; the
 * model picks one through an insertion sort.
 */
module AgeQuery {
  import opened Wrappers
  import opened Entities

  /** `idade >= x`; a NULL age satisfies no comparison. */
  predicate AtLeast(p: Person, x: int)
  {
    p.idade.Some? && p.idade.value >= x
  }

  /** The sort key; rows reaching the sort always carry an age. */
  function AgeKey(p: Person): int
  {
    if p.idade.Some? then p.idade.value else 0
  }

  predicate SortedByAge(s: seq<Person>)
  {
    forall i, j :: 0 <= i < j < |s| ==> AgeKey(s[i]) <= AgeKey(s[j])
  }

  /** The `where` clause: a subsequence of the rows, all of age at least `x`. */
  function Filter(rows: seq<Person>, x: int): (r: seq<Person>)
    ensures |r| <= |rows|
    ensures forall i :: 0 <= i < |r| ==> AtLeast(r[i], x)
  {
    if rows == [] then []
    else (if AtLeast(rows[0], x) then [rows[0]] else []) + Filter(rows[1..], x)
  }

  /** The `where` clause keeps each qualifying row as often as the table holds it, and nothing else. */
  lemma {:induction false} FilterCounts(rows: seq<Person>, x: int)
    ensures forall p :: p in Filter(rows, x) ==> AtLeast(p, x)
    ensures forall p :: multiset(Filter(rows, x))[p] == if AtLeast(p, x) then multiset(rows)[p] else 0
  {
    if rows != [] {
      FilterCounts(rows[1..], x);
      assert rows == [rows[0]] + rows[1..];
    }
  }

  lemma ConsSorted(p: Person, s: seq<Person>)
    requires SortedByAge(s)
    requires s != [] ==> AgeKey(p) <= AgeKey(s[0])
    ensures SortedByAge([p] + s)
  {
    var t := [p] + s;
    forall i, j | 0 <= i < j < |t|
      ensures AgeKey(t[i]) <= AgeKey(t[j])
    {
      if i == 0 && j > 1 {
        assert t[j] == s[j - 1];
      }
    }
  }

  lemma TailSorted(s: seq<Person>)
    requires SortedByAge(s) && s != []
    ensures SortedByAge(s[1..])
  {
    forall i, j | 0 <= i < j < |s| - 1
      ensures AgeKey(s[1..][i]) <= AgeKey(s[1..][j])
    {
      assert s[1..][i] == s[i + 1] && s[1..][j] == s[j + 1];
    }
  }

  /** One insertion step of the sort: the same people plus `p`. */
  function Insert(p: Person, s: seq<Person>): (r: seq<Person>)
    ensures multiset(r) == multiset(s) + multiset{p}
  {
    if s == [] then [p]
    else if AgeKey(p) <= AgeKey(s[0]) then [p] + s
    else
      assert s == [s[0]] + s[1..];
      [s[0]] + Insert(p, s[1..])
  }

  /** Inserting into a sorted sequence keeps it sorted, and the head is `p` or the old head. */
  lemma {:induction false} InsertSorted(p: Person, s: seq<Person>)
    requires SortedByAge(s)
    ensures Insert(p, s) != []
    ensures Insert(p, s)[0] == p || (s != [] && Insert(p, s)[0] == s[0])
    ensures SortedByAge(Insert(p, s))
  {
    if s == [] {
    } else if AgeKey(p) <= AgeKey(s[0]) {
      ConsSorted(p, s);
    } else {
      TailSorted(s);
      InsertSorted(p, s[1..]);
      var rest := Insert(p, s[1..]);
      assert AgeKey(s[0]) <= AgeKey(rest[0]) by {
        if rest[0] != p {
          assert rest[0] == s[1];
        }
      }
      ConsSorted(s[0], rest);
    }
  }

  /** The `order by idade` clause. */
  function SortByAge(s: seq<Person>): (r: seq<Person>)
    ensures SortedByAge(r)
    ensures multiset(r) == multiset(s)
  {
    if s == [] then []
    else
      assert s == [s[0]] + s[1..];
      InsertSorted(s[0], SortByAge(s[1..]));
      Insert(s[0], SortByAge(s[1..]))
  }

  /**
   * The query: every person of age at least `x`, as many times as the table
   * holds them, nobody else, ascending by age.
   */
  function SelecionarPessoasPorIdade(rows: seq<Person>, x: int): (r: seq<Person>)
    ensures SortedByAge(r)
    ensures forall p :: p in r ==> AtLeast(p, x)
    ensures forall p :: AtLeast(p, x) ==> multiset(r)[p] == multiset(rows)[p]
    ensures multiset(r) <= multiset(rows)
  {
    FilterCounts(rows, x);
    SortByAge(Filter(rows, x))
  }

  lemma ExampleFilter(a: Person, b: Person, c: Person, d: Person)
    requires a.idade == Some(10) && b.idade == Some(16) && c.idade == Some(16) && d.idade == Some(40)
    ensures Filter([a, b, c, d], 16) == [b, c, d]
  {
    assert Filter([d], 16) == [d] by { assert [d][1..] == []; }
    assert Filter([c, d], 16) == [c, d] by { assert [c, d][1..] == [d]; }
    assert Filter([b, c, d], 16) == [b, c, d] by { assert [b, c, d][1..] == [c, d]; }
    assert [a, b, c, d][1..] == [b, c, d];
  }

  lemma ExampleSort(b: Person, c: Person, d: Person)
    requires b.idade == Some(16) && c.idade == Some(16) && d.idade == Some(40)
    ensures SortByAge([b, c, d]) == [b, c, d]
  {
    assert SortByAge([d]) == [d] by { assert [d][1..] == []; }
    assert SortByAge([c, d]) == [c, d] by {
      assert [c, d][1..] == [d];
      assert Insert(c, [d]) == [c, d];
    }
    assert [b, c, d][1..] == [c, d];
    assert Insert(b, [c, d]) == [b, c, d];
  }

  /**
   * People aged 10, 16, 16 and 40, queried from 16: the three aged 16 or
   * more, with ages 16, 16, 40 in that order. Which of the two 16-year-olds
   * comes first is left open.
   */
  lemma AgesFrom16(a: Person, b: Person, c: Person, d: Person)
    requires a.idade == Some(10) && b.idade == Some(16) && c.idade == Some(16) && d.idade == Some(40)
    ensures var r := SelecionarPessoasPorIdade([a, b, c, d], 16);
            && |r| == 3
            && [AgeKey(r[0]), AgeKey(r[1]), AgeKey(r[2])] == [16, 16, 40]
            && multiset(r) == multiset{b, c, d}
  {
    ExampleFilter(a, b, c, d);
    ExampleSort(b, c, d);
  }
}
