/**
 * The file operations the user chooses between, and the menu labels they are offered under:
 * each constant's name with its underscores turned into spaces, in declaration order.
 */
module FileOperation {
  import opened Text

  datatype FileOperation = MOVE_FILE_ATOMICALLY | COPY_FILE_AND_DELETE_SRC

  /** values(): the constants in declaration order, each exactly once. */
  function Values(): (vs: seq<FileOperation>)
    ensures |vs| == 2 && vs[0] != vs[1]
    ensures forall op :: op in vs
  {
    var vs := [MOVE_FILE_ATOMICALLY, COPY_FILE_AND_DELETE_SRC];
    assert forall op :: op in vs by {
      forall op ensures op in vs {
        if op.MOVE_FILE_ATOMICALLY? { assert op == vs[0]; } else { assert op == vs[1]; }
      }
    }
    vs
  }

  /** toString() of a constant: its declared name. */
  function Name(op: FileOperation): string {
    match op
    case MOVE_FILE_ATOMICALLY => "MOVE_FILE_ATOMICALLY"
    case COPY_FILE_AND_DELETE_SRC => "COPY_FILE_AND_DELETE_SRC"
  }

  /** The label of a constant: its name with every '_' replaced by a space. */
  function Label(op: FileOperation): (r: string)
    ensures |r| == |Name(op)| && '_' !in r
  {
    ReplaceChar(Name(op), '_', ' ')
  }

  /** Different operations have different labels, so a label names one operation. */
  lemma LabelInjective(a: FileOperation, b: FileOperation)
    requires Label(a) == Label(b)
    ensures a == b
  {
  }

  /** toStringArray(): the label of every constant, at the constant's position in values(). */
  method ToStringArray() returns (strings: array<string>)
    ensures fresh(strings)
    ensures strings.Length == |Values()|
    ensures forall i :: 0 <= i < strings.Length ==> strings[i] == Label(Values()[i])
  {
    var values := Values();
    strings := new string[|values|];
    for i := 0 to |values|
      invariant forall k :: 0 <= k < i ==> strings[k] == Label(values[k])
    {
      strings[i] := ReplaceChar(Name(values[i]), '_', ' ');
    }
  }
}
