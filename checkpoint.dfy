/** The key–value store that keeps an exam's checkpoint between app
    launches (AsyncStorage): the current question index and the completed
    flag, each under a key built from the exam id. */
module Checkpoint {
  import opened Wrappers

  const KeyHead: string := "assessment_"
  const IndexSuffix: string := "_currentIndex"
  const CompletedSuffix: string := "_completed"

  /** `assessment_<id>_currentIndex` */
  function IndexKey(examId: string): string {
    KeyHead + examId + IndexSuffix
  }

  /** `assessment_<id>_completed` */
  function CompletedKey(examId: string): string {
    KeyHead + examId + CompletedSuffix
  }

  /** The two keys never collide, whatever the two exam ids: they end in
      different characters. */
  lemma KeysNeverCollide(a: string, b: string)
    ensures IndexKey(a) != CompletedKey(b)
  {
    var i := IndexKey(a);
    var c := CompletedKey(b);
    assert i[|i| - 1] == 'x';
    assert c[|c| - 1] == 'd';
  }

  /** Different exams keep their indexes under different keys. */
  lemma IndexKeyInjective(a: string, b: string)
    requires IndexKey(a) == IndexKey(b)
    ensures a == b
  {
    var ka := IndexKey(a);
    assert a == ka[|KeyHead|..|ka| - |IndexSuffix|];
    assert b == ka[|KeyHead|..|ka| - |IndexSuffix|];
  }

  /** Different exams keep their completed flags under different keys. */
  lemma CompletedKeyInjective(a: string, b: string)
    requires CompletedKey(a) == CompletedKey(b)
    ensures a == b
  {
    var ka := CompletedKey(a);
    assert a == ka[|KeyHead|..|ka| - |CompletedSuffix|];
    assert b == ka[|KeyHead|..|ka| - |CompletedSuffix|];
  }

  /** The device's string store. */
  class KeyValueStore {
    var entries: map<string, string>

    constructor(entries: map<string, string>)
      ensures this.entries == entries
    {
      this.entries := entries;
    }

    /** `getItem`: the stored value, or nothing (`null`). */
    method GetItem(key: string) returns (value: Option<string>)
      ensures value.Some? <==> key in entries
      ensures value.Some? ==> value.value == entries[key]
    {
      if key in entries {
        value := Some(entries[key]);
      } else {
        value := None;
      }
    }

    method SetItem(key: string, value: string)
      modifies this
      ensures entries == old(entries)[key := value]
    {
      entries := entries[key := value];
    }

    method RemoveItem(key: string)
      modifies this
      ensures entries == old(entries) - {key}
    {
      entries := entries - {key};
    }
  }
}
