/** Definitions that several components share. */
module Prelude {

  /** A pointer that may be null, or an answer that may be missing. */
  datatype Option<+T> = None | Some(value: T)

  /** PAGE_SIZE (kernel/mm/memlayout.h). */
  const PageSize: int := 4096

  /** USER_BEGIN and USER_END. */
  const UserBegin: int := 0x0020_0000
  const UserEnd: int := 0x8000_0000

  /** Error numbers (lib/errno.h). */
  const EInval: int := 3
  const ENoMem: int := 4
  const ENoFreeProc: int := 5

  ghost predicate Distinct<T>(s: seq<T>) {
    forall i, j :: 0 <= i < j < |s| ==> s[i] != s[j]
  }
}
