/** Collecting a list that a service hands out page by page. */
module Paging {
  import opened Wrappers
  import opened Lists

  /** A page's rows, and the size of the whole list if the service states it. */
  datatype Page<T> = Page(batch: seq<T>, total: Option<nat>)

  datatype Problem = MissingTotal(page: nat) | IncompletePage(page: nat)

  /** The rows of the first `n` pages. */
  ghost function Collected<T>(serve: nat -> Page<T>, n: nat): seq<T> {
    if n == 0 then [] else Collected(serve, n - 1) + serve(n).batch
  }

  /** After page `n` there is more to ask for. */
  ghost predicate GoesOn<T>(serve: nat -> Page<T>, n: nat) {
    serve(n).total.Some? && serve(n).batch != [] && |Collected(serve, n)| < serve(n).total.value
  }

  ghost predicate Breaks<T>(serve: nat -> Page<T>, n: nat)
    requires n >= 1
  {
    serve(n).total.None? || (serve(n).batch == [] && serve(n).total.value > |Collected(serve, n - 1)|)
  }

  ghost predicate EndsAt<T>(serve: nat -> Page<T>, n: nat) {
    n >= 1 && !GoesOn(serve, n) && forall k :: 1 <= k < n ==> GoesOn(serve, k)
  }

  /** Ask for pages until one is empty or all rows are there: the first page after which there is no
      more to ask for decides. However the stated totals change, they stay below some bound. */
  method Pages<T>(serve: nat -> Page<T>, ghost bound: nat) returns (r: Result<seq<T>, Problem>)
    requires forall n: nat :: serve(n).total.Some? ==> serve(n).total.value <= bound
    ensures exists n: nat :: EndsAt(serve, n)
    ensures forall n: nat :: EndsAt(serve, n) ==>
      && (r.Failure? <==> Breaks(serve, n))
      && (r.Success? ==> r.value == Collected(serve, n))
      && (r.Failure? ==> r.error == if serve(n).total.None? then MissingTotal(n) else IncompletePage(n))
  {
    var page, result: seq<T> := 1, [];
    while true
      invariant page >= 1 && result == Collected(serve, page - 1)
      invariant forall k :: 1 <= k < page ==> GoesOn(serve, k)
      invariant page > 1 ==> |result| < bound
      decreases bound - |result|
    {
      var answer := serve(page);
      EndsOnce(serve, page);
      if answer.total.None? {
        assert EndsAt(serve, page);
        return Failure(MissingTotal(page));
      }
      if answer.batch == [] && answer.total.value > |result| {
        assert EndsAt(serve, page);
        return Failure(IncompletePage(page));
      }
      result := result + answer.batch;
      if answer.batch == [] || |result| >= answer.total.value {
        assert EndsAt(serve, page);
        return Success(result);
      }
      page := page + 1;
    }
  }

  lemma EndsOnce<T>(serve: nat -> Page<T>, n: nat)
    requires forall k :: 1 <= k < n ==> GoesOn(serve, k)
    ensures forall m: nat :: EndsAt(serve, m) && n >= 1 ==> m >= n && (!GoesOn(serve, n) ==> m == n)
  {
  }

  /** A service that cuts one list into pages of `size`. */
  ghost predicate Serves<T>(serve: nat -> Page<T>, rows: seq<T>, size: nat) {
    size >= 1 && forall n: nat :: n >= 1 ==> serve(n) == Page(CutOut(rows, n, size), Some(|rows|))
  }

  function CutOut<T>(rows: seq<T>, n: nat, size: nat): seq<T>
    requires n >= 1
  {
    rows[Min((n - 1) * size, |rows|)..Min(n * size, |rows|)]
  }

  lemma {:induction false} CollectedPrefix<T>(serve: nat -> Page<T>, rows: seq<T>, size: nat, n: nat)
    requires Serves(serve, rows, size)
    ensures Collected(serve, n) == rows[..Min(n * size, |rows|)]
  {
    if n > 0 {
      CollectedPrefix(serve, rows, size, n - 1);
      assert n * size == (n - 1) * size + size;
    }
  }

  /** Pages of one list are collected back into that list. */
  lemma CollectsAll<T>(serve: nat -> Page<T>, rows: seq<T>, size: nat, n: nat)
    requires Serves(serve, rows, size) && EndsAt(serve, n)
    ensures !Breaks(serve, n) && Collected(serve, n) == rows
  {
    CollectedPrefix(serve, rows, size, n);
    CollectedPrefix(serve, rows, size, n - 1);
    assert n * size == (n - 1) * size + size;
    if n > 1 {
      assert GoesOn(serve, n - 1);
    }
  }
}
