/** The mentor's table of student editors: student id to that student's code.
    Both updates copy the previous table and change one key. */
module StudentMap {

  /** Insert or overwrite one student's code (`newStudentEditor`, `codeUpdate`). */
  function Put(blocks: map<string, string>, studentId: string, code: string): (r: map<string, string>)
    ensures studentId in r && r[studentId] == code
    ensures r.Keys == blocks.Keys + {studentId}
    ensures forall k :: k in blocks && k != studentId ==> r[k] == blocks[k]
  {
    blocks[studentId := code]
  }

  /** Drop one student's editor (`removeStudentEditor`); an absent id is no error. */
  function Remove(blocks: map<string, string>, studentId: string): (r: map<string, string>)
    ensures studentId !in r
    ensures r.Keys == blocks.Keys - {studentId}
    ensures forall k :: k in r ==> r[k] == blocks[k]
  {
    blocks - {studentId}
  }

  /** Removing an id that is not there leaves the table as it was, so removing
      twice is the same as removing once. */
  lemma RemoveIdempotent(blocks: map<string, string>, studentId: string)
    ensures studentId !in blocks ==> Remove(blocks, studentId) == blocks
    ensures Remove(Remove(blocks, studentId), studentId) == Remove(blocks, studentId)
  {
  }

  /** A later code update replaces the code an editor was created with. */
  lemma PutOverwrites(blocks: map<string, string>, studentId: string, first: string, second: string)
    ensures Put(Put(blocks, studentId, first), studentId, second) == Put(blocks, studentId, second)
  {
  }

  /** A student who appears and then leaves leaves the table as if they had
      never appeared. */
  lemma RemoveUndoesPut(blocks: map<string, string>, studentId: string, code: string)
    ensures Remove(Put(blocks, studentId, code), studentId) == Remove(blocks, studentId)
    ensures studentId !in blocks ==> Remove(Put(blocks, studentId, code), studentId) == blocks
  {
  }

  /** Updates to two different students commute. */
  lemma PutsOnDistinctIdsCommute(blocks: map<string, string>, a: string, x: string, b: string, y: string)
    requires a != b
    ensures Put(Put(blocks, a, x), b, y) == Put(Put(blocks, b, y), a, x)
  {
  }
}
