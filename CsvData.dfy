/**
 * Row selection over the rows of a CSV file already read into memory.
 * Each selector turns the k6 execution context (virtual-user id, iteration
 * counters, `MAX_VUS`, a random draw) into an index, checks it where the
 * source does, and reads the row. The context values are parameters.
 *
 * A JavaScript array read outside the array yields `undefined`, modelled
 * as `None`; a thrown `Error` or `RangeError` is a `Failure`.
 */
module CsvData {
  import opened Wrappers
  import opened Arith

  /** Why a selector throws: `Error` when the rows run out, `RangeError` with the index and the row count. */
  datatype SelectError = NotEnoughRows | OutOfRange(index: int, length: int)

  /** What the block selectors return: the row and the index it was read at. */
  datatype Row<T> = Row(data: T, index: int)

  /** `csvRead[index]`: the row, or `undefined` when the index is outside the array. */
  function ReadAt<T>(csv: seq<T>, index: int): (r: Option<T>)
    ensures r.Some? <==> 0 <= index < |csv|
    ensures r.Some? ==> r.value == csv[index]
  {
    if 0 <= index < |csv| then Some(csv[index]) else None
  }

  // ---------------------------------------------------------------------
  // getRandomData
  // ---------------------------------------------------------------------

  /**
   * `Math.floor(Math.random() * length)` for the draw `num / den` in [0, 1):
   * a valid index of a non-empty array, and 0 for an empty one.
   */
  function RandomIndex(num: nat, den: nat, length: nat): (index: nat)
    requires num < den
    ensures length > 0 ==> index < length
    ensures length == 0 ==> index == 0
  {
    ScaledDrawBelow(num, den, length);
    num * length / den
  }

  lemma ScaledDrawBelow(num: nat, den: nat, length: nat)
    requires num < den
    ensures length > 0 ==> num * length / den < length
  {
    if length > 0 {
      assert num * length < den * length;
      assert num * length / den * den <= num * length;
    }
  }

  /** getRandomData: the row at the drawn index; `undefined` only for an empty file. */
  function GetRandomData<T>(csv: seq<T>, num: nat, den: nat): (r: Option<T>)
    requires num < den
    ensures r.Some? <==> |csv| > 0
    ensures r.Some? ==> r.value in csv
  {
    ReadAt(csv, RandomIndex(num, den, |csv|))
  }

  // ---------------------------------------------------------------------
  // getSameDataByUser
  // ---------------------------------------------------------------------

  /** getSameDataByUser: the row `idInTest - 1`, so each virtual user has its own fixed row. */
  function GetSameDataByUser<T>(csv: seq<T>, idInTest: int): (r: Option<T>)
    ensures r.Some? <==> 1 <= idInTest <= |csv|
    ensures r.Some? ==> r.value == csv[idInTest - 1]
  {
    ReadAt(csv, idInTest - 1)
  }

  /** The first virtual user reads the first row. */
  lemma FirstUserGetsFirstRow<T>(csv: seq<T>)
    requires |csv| > 0
    ensures GetSameDataByUser(csv, 1) == Some(csv[0])
  {
  }

  // ---------------------------------------------------------------------
  // getSecuencialData
  // ---------------------------------------------------------------------

  /** `vu + iter * MAX_VUS - 1`: iteration `iter` of every user follows the previous round of `MAX_VUS` rows. */
  function SecuencialIndex(vu: int, iter: int, maxVus: int): (index: int)
    ensures 1 <= vu <= maxVus ==> iter * maxVus <= index < iter * maxVus + maxVus
  {
    vu + iter * maxVus - 1
  }

  /** The documented example: user 2 in iteration 3 with `MAX_VUS` 10 reads row 31. */
  lemma SecuencialIndexExample()
    ensures SecuencialIndex(2, 3, 10) == 31
  {
  }

  /** Within the users 1 .. MAX_VUS, the index gives back the user and the iteration. */
  lemma SecuencialIndexDecodes(vu: int, iter: nat, maxVus: int)
    requires 1 <= vu <= maxVus
    ensures SecuencialIndex(vu, iter, maxVus) >= 0
    ensures SecuencialIndex(vu, iter, maxVus) / maxVus == iter
    ensures SecuencialIndex(vu, iter, maxVus) % maxVus + 1 == vu
  {
    var index := SecuencialIndex(vu, iter, maxVus);
    assert index == iter * maxVus + (vu - 1);
    DivModOfSum(iter, vu - 1, maxVus);
  }

  /** No two (user, iteration) pairs with users in 1 .. MAX_VUS read the same row. */
  lemma SecuencialIndexInjective(vu: int, iter: nat, vu': int, iter': nat, maxVus: int)
    requires 1 <= vu <= maxVus && 1 <= vu' <= maxVus
    ensures SecuencialIndex(vu, iter, maxVus) == SecuencialIndex(vu', iter', maxVus) <==> vu == vu' && iter == iter'
  {
    SecuencialIndexDecodes(vu, iter, maxVus);
    SecuencialIndexDecodes(vu', iter', maxVus);
  }

  /** getSecuencialData: fails exactly when the index reaches past the last row. */
  function GetSecuencialData<T>(csv: seq<T>, vu: int, iter: int, maxVus: int): (r: Result<Option<T>, SelectError>)
    ensures r.Failure? <==> SecuencialIndex(vu, iter, maxVus) >= |csv|
    ensures r.Failure? ==> r.error == NotEnoughRows
    ensures r.Success? ==> r.value == ReadAt(csv, SecuencialIndex(vu, iter, maxVus))
  {
    var index := vu + iter * maxVus - 1;
    if index >= |csv| then Failure(NotEnoughRows) else Success(ReadAt(csv, index))
  }

  /** A user in 1 .. MAX_VUS in a non-negative iteration gets a row whenever there is no failure. */
  lemma SecuencialDataInRange<T>(csv: seq<T>, vu: int, iter: nat, maxVus: int)
    requires 1 <= vu <= maxVus
    requires SecuencialIndex(vu, iter, maxVus) < |csv|
    ensures GetSecuencialData(csv, vu, iter, maxVus) == Success(Some(csv[SecuencialIndex(vu, iter, maxVus)]))
  {
    SecuencialIndexDecodes(vu, iter, maxVus);
  }

  // ---------------------------------------------------------------------
  // getDataInOrder
  // ---------------------------------------------------------------------

  /** getDataInOrder: the row numbered by the scenario-wide iteration; fails past the last row. */
  function GetDataInOrder<T>(csv: seq<T>, iterationInTest: int): (r: Result<Option<T>, SelectError>)
    ensures r.Failure? <==> iterationInTest >= |csv|
    ensures r.Failure? ==> r.error == NotEnoughRows
    ensures r.Success? ==> r.value == ReadAt(csv, iterationInTest)
  {
    if iterationInTest >= |csv| then Failure(NotEnoughRows) else Success(ReadAt(csv, iterationInTest))
  }

  /** The documented example: iteration 2 over a, b, c, d reads c. */
  lemma DataInOrderExample()
    ensures GetDataInOrder(["a", "b", "c", "d"], 2) == Success(Some("c"))
  {
  }

  // ---------------------------------------------------------------------
  // getRandomDataByBlock and getSequentialDataByBlock
  // ---------------------------------------------------------------------

  /** The rows of user `vu`'s block: `(vu - 1) * blockLong` up to `blockLong` rows further. */
  predicate InBlock(index: int, vu: int, blockLong: int) {
    (vu - 1) * blockLong <= index < (vu - 1) * blockLong + blockLong
  }

  /** `(vu - 1) * blockLong + randomIntBetween(0, blockLong - 1)`, the draw given. */
  function RandomBlockIndex(vu: int, blockLong: int, draw: int): (index: int)
    ensures 0 <= draw < blockLong ==> InBlock(index, vu, blockLong)
  {
    (vu - 1) * blockLong + draw
  }

  /** A draw of `randomIntBetween(0, blockLong - 1)` lands inside the user's own block. */
  lemma RandomBlockIndexInBlock(vu: int, blockLong: int, draw: int)
    requires 0 <= draw <= blockLong - 1
    ensures InBlock(RandomBlockIndex(vu, blockLong, draw), vu, blockLong)
  {
  }

  /** The block an index lies in names its user: `index / blockLong == vu - 1`. */
  lemma BlockOfIndex(index: int, vu: int, blockLong: int)
    requires blockLong > 0 && InBlock(index, vu, blockLong)
    ensures index / blockLong == vu - 1
  {
    DivModOfSum(vu - 1, index - (vu - 1) * blockLong, blockLong);
  }

  /** The blocks of two different users do not overlap. */
  lemma BlocksDisjoint(index: int, vu: int, vu': int, blockLong: int)
    requires blockLong > 0
    requires InBlock(index, vu, blockLong) && InBlock(index, vu', blockLong)
    ensures vu == vu'
  {
    BlockOfIndex(index, vu, blockLong);
    BlockOfIndex(index, vu', blockLong);
  }

  /** The bounds check and read shared by both block selectors. */
  function ReadBlockRow<T>(csv: seq<T>, index: int): (r: Result<Row<T>, SelectError>)
    ensures r.Failure? <==> index < 0 || index >= |csv|
    ensures r.Failure? ==> r.error == OutOfRange(index, |csv|)
    ensures r.Success? ==> r.value.index == index && r.value.data == csv[index]
  {
    if index < 0 || index >= |csv| then Failure(OutOfRange(index, |csv|)) else Success(Row(csv[index], index))
  }

  /** getRandomDataByBlock: the row at a random index of the user's block, with that index. */
  function GetRandomDataByBlock<T>(csv: seq<T>, vu: int, blockLong: int, draw: int): (r: Result<Row<T>, SelectError>)
    ensures var index := RandomBlockIndex(vu, blockLong, draw);
            && (r.Failure? <==> index < 0 || index >= |csv|)
            && (r.Success? ==> r.value == Row(csv[index], index))
  {
    ReadBlockRow(csv, RandomBlockIndex(vu, blockLong, draw))
  }

  function Abs(x: int): int {
    if x < 0 then -x else x
  }

  /** The quotient of a by |b|, truncated toward zero. */
  function TruncQuot(a: int, b: int): int
    requires b != 0
  {
    if a >= 0 then a / Abs(b) else -((-a) / Abs(b))
  }

  /** JavaScript's `a % b`: what is left of a after the truncated quotient, with the sign of a. */
  function JsRem(a: int, b: int): (r: int)
    requires b != 0
    ensures a >= 0 ==> 0 <= r < Abs(b)
    ensures a < 0 ==> -Abs(b) < r <= 0
    ensures a == TruncQuot(a, b) * Abs(b) + r
  {
    if a >= 0 then a % Abs(b) else -((-a) % Abs(b))
  }

  /** `(vu - 1) * blockLong + iter % blockLong`, with JavaScript's `%`. */
  function SequentialBlockIndex(vu: int, iter: int, blockLong: int): (index: int)
    requires blockLong != 0
    ensures blockLong > 0 && iter >= 0 ==> InBlock(index, vu, blockLong)
  {
    (vu - 1) * blockLong + JsRem(iter, blockLong)
  }

  /** In non-negative iterations, a user's sequential index stays inside its block. */
  lemma SequentialBlockIndexInBlock(vu: int, iter: nat, blockLong: int)
    requires blockLong > 0
    ensures InBlock(SequentialBlockIndex(vu, iter, blockLong), vu, blockLong)
  {
  }

  /** The sequential index walks the block in order and starts over every `blockLong` iterations. */
  lemma SequentialBlockIndexPeriodic(vu: int, iter: nat, blockLong: int)
    requires blockLong > 0
    ensures SequentialBlockIndex(vu, iter + blockLong, blockLong) == SequentialBlockIndex(vu, iter, blockLong)
    ensures iter < blockLong ==> SequentialBlockIndex(vu, iter, blockLong) == (vu - 1) * blockLong + iter
  {
    var q, r := iter / blockLong, iter % blockLong;
    assert iter + blockLong == (q + 1) * blockLong + r;
    DivModOfSum(q + 1, r, blockLong);
    if iter < blockLong {
      DivModOfSum(0, iter, blockLong);
    }
  }

  /** getSequentialDataByBlock: the user's block row for this iteration, with its index. */
  function GetSequentialDataByBlock<T>(csv: seq<T>, vu: int, iter: int, blockLong: int): (r: Result<Row<T>, SelectError>)
    requires blockLong != 0
    ensures var index := SequentialBlockIndex(vu, iter, blockLong);
            && (r.Failure? <==> index < 0 || index >= |csv|)
            && (r.Success? ==> r.value == Row(csv[index], index))
  {
    ReadBlockRow(csv, SequentialBlockIndex(vu, iter, blockLong))
  }
}
