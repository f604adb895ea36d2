/** The two checksum words of one delivered member, over abstract words: which changes of a
    member they separate follows from the mixer, the rotation and the exclusive-or alone.
  */
module MemberWords {
  import opened LinearFold
  import opened Wrappers

  datatype Ops<!T> = Ops(mix: T -> T, xor: (T, T) -> T, rotateLeft: T -> T, rotateRight: T -> T)

  /** `absent` stands in for a missing score, `key` is mixed into a present one. */
  datatype Keys<T> = Keys(absent1: T, key1: T, absent2: T, key2: T, salt: T)

  function ScoreWord<T>(ops: Ops<T>, absent: T, key: T, score: Option<T>): T {
    match score
    case None => ops.mix(absent)
    case Some(value) => ops.mix(ops.xor(value, key))
  }

  function FirstWord<T>(ops: Ops<T>, keys: Keys<T>, id: T, score: Option<T>): T {
    ops.mix(ops.xor(id, ops.rotateLeft(ScoreWord(ops, keys.absent1, keys.key1, score))))
  }

  function SecondWord<T>(ops: Ops<T>, keys: Keys<T>, id: T, score: Option<T>): T {
    ops.mix(ops.xor(ops.xor(ScoreWord(ops, keys.absent2, keys.key2, score), ops.rotateRight(id)), keys.salt))
  }

  ghost predicate Separating<T(!new)>(ops: Ops<T>) {
    Injective(ops.mix) && Injective(ops.rotateLeft) && Cancels(ops.xor)
  }

  /** No score looks absent in both words at once. */
  ghost predicate AbsenceApart<T(!new)>(ops: Ops<T>, keys: Keys<T>) {
    forall v :: ops.xor(v, keys.key1) == keys.absent1 ==> ops.xor(v, keys.key2) != keys.absent2
  }

  lemma ScoresSeparate<T(!new)>(ops: Ops<T>, keys: Keys<T>, s: Option<T>, t: Option<T>)
    requires Separating(ops) && AbsenceApart(ops, keys) && s != t
    ensures ScoreWord(ops, keys.absent1, keys.key1, s) != ScoreWord(ops, keys.absent1, keys.key1, t)
         || ScoreWord(ops, keys.absent2, keys.key2, s) != ScoreWord(ops, keys.absent2, keys.key2, t)
  {
    match (s, t) {
      case (None, Some(w)) => assert ops.xor(w, keys.key1) == keys.absent1 ==> ops.xor(w, keys.key2) != keys.absent2;
      case (Some(v), None) => assert ops.xor(v, keys.key1) == keys.absent1 ==> ops.xor(v, keys.key2) != keys.absent2;
      case (Some(v), Some(w)) =>
    }
  }

  /** A member changed in its id only, or in its score only, has a different pair of words. */
  lemma PairSeparates<T(!new)>(ops: Ops<T>, keys: Keys<T>, id: T, score: Option<T>, id': T, score': Option<T>)
    requires Separating(ops) && AbsenceApart(ops, keys)
    requires (id, score) != (id', score') && (id == id' || score == score')
    ensures FirstWord(ops, keys, id, score) != FirstWord(ops, keys, id', score')
         || SecondWord(ops, keys, id, score) != SecondWord(ops, keys, id', score')
  {
    if id == id' {
      ScoresSeparate(ops, keys, score, score');
    }
  }
}
