/** The matrix editor: the two operand grids, their resizing, the cell
    updates typed into them, and the request sent for an operation. */
module MatrixEditor {
  import opened Wrappers

  // ---------------------------------------------------------------------------
  // Grids and cells
  // ---------------------------------------------------------------------------

  /** An r-by-c grid of zeros. */
  function Zeros(r: nat, c: nat): (g: seq<seq<real>>)
    ensures |g| == r && forall i :: 0 <= i < r ==> |g[i]| == c
    ensures forall i, j :: 0 <= i < r && 0 <= j < c ==> g[i][j] == 0.0
  {
    seq(r, i => seq(c, j => 0.0))
  }

  /** The rows of a matrix, as the request carries them. */
  function Grid(m: array2<real>): (g: seq<seq<real>>)
    reads m
    ensures |g| == m.Length0
    ensures forall i :: 0 <= i < |g| ==> |g[i]| == m.Length1
    ensures forall i, j :: 0 <= i < m.Length0 && 0 <= j < m.Length1 ==> g[i][j] == m[i, j]
  {
    seq(m.Length0, i requires 0 <= i < m.Length0 reads m =>
      seq(m.Length1, j requires 0 <= j < m.Length1 reads m => m[i, j]))
  }

  /** A matrix holding only zeros is the zero grid of its size. */
  lemma GridOfZeros(m: array2<real>)
    requires forall i, j :: 0 <= i < m.Length0 && 0 <= j < m.Length1 ==> m[i, j] == 0.0
    ensures Grid(m) == Zeros(m.Length0, m.Length1)
  {
    var g, z := Grid(m), Zeros(m.Length0, m.Length1);
    forall i | 0 <= i < m.Length0 ensures g[i] == z[i] {
      assert |g[i]| == |z[i]|;
    }
  }

  /** `parseFloat(value) || 0`: a NaN reading (`None`) and zero both store 0. */
  function CellValue(parsed: Option<real>): (v: real)
    ensures parsed.None? ==> v == 0.0
    ensures parsed.Some? ==> v == parsed.value
  {
    match parsed
    case None => 0.0
    case Some(x) => x
  }

  // ---------------------------------------------------------------------------
  // Size entry
  // ---------------------------------------------------------------------------

  /** `parseInt(value) || 2` as written: a NaN reading (`None`) or zero falls
      back to 2, any other integer, negative ones included, is used. */
  function SizeEntryAsWritten(entry: Option<int>): (n: int)
    ensures entry.None? || entry == Some(0) ==> n == 2
    ensures entry.Some? && entry.value != 0 ==> n == entry.value
  {
    match entry
    case None => 2
    case Some(v) => if v == 0 then 2 else v
  }

  /** A typed "-1" reaches the resize as a negative size, which `Array(n)`
      rejects. */
  lemma NegativeSizeGetsThrough()
    ensures SizeEntryAsWritten(Some(-1)) == -1
  {
  }

  /** The size entry as intended: anything that is not a positive integer
      falls back to 2. */
  function EntrySize(entry: Option<int>): (n: nat)
    ensures n >= 1
    ensures entry.Some? && entry.value >= 1 ==> n == entry.value
    ensures entry.None? || entry.value < 1 ==> n == 2
  {
    match entry
    case None => 2
    case Some(v) => if v < 1 then 2 else v
  }

  /** The corrected entry differs from the written one only on negative input. */
  lemma EntrySizeAgrees(entry: Option<int>)
    ensures EntrySize(entry) == SizeEntryAsWritten(entry) <==> entry.None? || entry.value >= 0
  {
  }

  // ---------------------------------------------------------------------------
  // Requests
  // ---------------------------------------------------------------------------

  /** The operations that take a second operand; matrix B is shown and sent
      only for these. */
  predicate UsesOperandB(operation: string) {
    operation in ["add", "subtract", "multiply"]
  }

  datatype MatrixRequest =
    MatrixRequest(matrixA: seq<seq<real>>, matrixB: Option<seq<seq<real>>>, operation: string)

  datatype MatrixResponse = MatrixResponse(
    result: Option<seq<seq<real>>>, scalarResult: Option<real>, success: bool, error: Option<string>)

  const FailureMessage := "Failed to perform matrix operation"

  const FailedOperation := MatrixResponse(None, None, false, Some(FailureMessage))

  /** The request for an operation: matrix A always, matrix B only for add,
      subtract and multiply. */
  function BuildRequest(a: seq<seq<real>>, b: seq<seq<real>>, operation: string): (r: MatrixRequest)
    ensures r.matrixA == a && r.operation == operation
    ensures r.matrixB.Some? <==> operation == "add" || operation == "subtract" || operation == "multiply"
    ensures r.matrixB.Some? ==> r.matrixB.value == b
  {
    MatrixRequest(a, if UsesOperandB(operation) then Some(b) else None, operation)
  }

  // ---------------------------------------------------------------------------
  // Editor state
  // ---------------------------------------------------------------------------

  class MatrixCalculator {
    var rows: nat
    var cols: nat
    var matrixA: array2<real>
    var matrixB: array2<real>
    var operation: string
    var result: Option<MatrixResponse>
    var isLoading: bool

    /** Both operands are separate grids of the current size. */
    ghost predicate Valid()
      reads this
    {
      matrixA != matrixB
      && matrixA.Length0 == rows && matrixA.Length1 == cols
      && matrixB.Length0 == rows && matrixB.Length1 == cols
    }

    constructor()
      ensures Valid()
      ensures rows == 2 && cols == 2
      ensures Grid(matrixA) == Zeros(2, 2) && Grid(matrixB) == Zeros(2, 2)
      ensures operation == "add" && result == None && !isLoading
    {
      rows := 2;
      cols := 2;
      matrixA := new real[2, 2]((i, j) => 0.0);
      matrixB := new real[2, 2]((i, j) => 0.0);
      operation := "add";
      result := None;
      isLoading := false;
      new;
      GridOfZeros(matrixA);
      GridOfZeros(matrixB);
    }

    /** Replaces both operands by new zero grids of the given size. */
    method InitializeMatrices(newRows: nat, newCols: nat)
      modifies this
      ensures fresh(matrixA) && fresh(matrixB) && matrixA != matrixB
      ensures matrixA.Length0 == newRows && matrixA.Length1 == newCols
      ensures matrixB.Length0 == newRows && matrixB.Length1 == newCols
      ensures Grid(matrixA) == Zeros(newRows, newCols) && Grid(matrixB) == Zeros(newRows, newCols)
      ensures rows == old(rows) && cols == old(cols)
      ensures operation == old(operation) && result == old(result) && isLoading == old(isLoading)
    {
      matrixA := new real[newRows, newCols]((i, j) => 0.0);
      matrixB := new real[newRows, newCols]((i, j) => 0.0);
      GridOfZeros(matrixA);
      GridOfZeros(matrixB);
    }

    /** A new size discards every entry of both operands. */
    method HandleSizeChange(newRows: nat, newCols: nat)
      modifies this
      ensures Valid()
      ensures rows == newRows && cols == newCols
      ensures fresh(matrixA) && fresh(matrixB)
      ensures Grid(matrixA) == Zeros(newRows, newCols) && Grid(matrixB) == Zeros(newRows, newCols)
      ensures operation == old(operation) && result == old(result) && isLoading == old(isLoading)
    {
      rows := newRows;
      cols := newCols;
      InitializeMatrices(newRows, newCols);
    }

    /** The rows field; `entry` is `parseInt` of the typed text. */
    method OnRowsInput(entry: Option<int>)
      modifies this
      ensures Valid()
      ensures rows == EntrySize(entry) && cols == old(cols)
      ensures Grid(matrixA) == Zeros(rows, cols) && Grid(matrixB) == Zeros(rows, cols)
      ensures operation == old(operation) && result == old(result) && isLoading == old(isLoading)
    {
      HandleSizeChange(EntrySize(entry), cols);
    }

    /** The columns field; `entry` is `parseInt` of the typed text. */
    method OnColsInput(entry: Option<int>)
      modifies this
      ensures Valid()
      ensures rows == old(rows) && cols == EntrySize(entry)
      ensures Grid(matrixA) == Zeros(rows, cols) && Grid(matrixB) == Zeros(rows, cols)
      ensures operation == old(operation) && result == old(result) && isLoading == old(isLoading)
    {
      HandleSizeChange(rows, EntrySize(entry));
    }

    /** Writes one cell of matrix A in place; `parsed` is `parseFloat` of the
        typed text. Every other cell, the size and matrix B are unchanged. */
    method UpdateMatrixA(row: nat, col: nat, parsed: Option<real>)
      requires Valid() && row < rows && col < cols
      modifies matrixA
      ensures Valid()
      ensures Grid(matrixA) == old(Grid(matrixA))[row := old(Grid(matrixA))[row][col := CellValue(parsed)]]
      ensures Grid(matrixB) == old(Grid(matrixB))
    {
      ghost var before := Grid(matrixA);
      matrixA[row, col] := CellValue(parsed);
      ghost var after := before[row := before[row][col := CellValue(parsed)]];
      forall i | 0 <= i < rows ensures Grid(matrixA)[i] == after[i] {
        assert |Grid(matrixA)[i]| == |after[i]|;
      }
    }

    /** Writes one cell of matrix B in place; matrix A is untouched. */
    method UpdateMatrixB(row: nat, col: nat, parsed: Option<real>)
      requires Valid() && row < rows && col < cols
      modifies matrixB
      ensures Valid()
      ensures Grid(matrixB) == old(Grid(matrixB))[row := old(Grid(matrixB))[row][col := CellValue(parsed)]]
      ensures Grid(matrixA) == old(Grid(matrixA))
    {
      ghost var before := Grid(matrixB);
      matrixB[row, col] := CellValue(parsed);
      ghost var after := before[row := before[row][col := CellValue(parsed)]];
      forall i | 0 <= i < rows ensures Grid(matrixB)[i] == after[i] {
        assert |Grid(matrixB)[i]| == |after[i]|;
      }
    }

    method SetOperation(op: string)
      modifies this
      ensures operation == op
      ensures rows == old(rows) && cols == old(cols)
      ensures matrixA == old(matrixA) && matrixB == old(matrixB)
      ensures result == old(result) && isLoading == old(isLoading)
    {
      operation := op;
    }

    /** Sends the operands for the chosen operation; `reply` is what the
        service call produces. Returns the request sent. The busy flag ends
        cleared whatever the outcome. */
    method HandleOperation(reply: Reply<MatrixResponse>) returns (sent: MatrixRequest)
      requires Valid()
      modifies this
      ensures Valid()
      ensures sent == BuildRequest(Grid(matrixA), Grid(matrixB), operation)
      ensures reply.Delivered? ==> result == Some(reply.body)
      ensures reply.Failed? ==> result == Some(FailedOperation)
      ensures !isLoading
      ensures rows == old(rows) && cols == old(cols) && operation == old(operation)
      ensures matrixA == old(matrixA) && matrixB == old(matrixB)
    {
      isLoading := true;
      sent := BuildRequest(Grid(matrixA), Grid(matrixB), operation);
      match reply {
        case Delivered(body) =>
          result := Some(body);
        case Failed =>
          result := Some(FailedOperation);
      }
      isLoading := false;
    }
  }
}
