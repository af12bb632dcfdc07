/**
 Node keys: a department id, a slash, and the stage's id within the department.
 */
module NodeKeys {
  import opened Plan

  function KeyOf(d: DeptId, stage: Stage): NodeKey {
    d + "/" + stage.id
  }

  /** The part of the key before the first slash, all of it if there is none. */
  function DeptFromNodeKey(key: NodeKey): DeptId {
    if key == "" || key[0] == '/' then "" else [key[0]] + DeptFromNodeKey(key[1..])
  }

  /** It has no slash, and what follows it in the key, if anything, starts with one. */
  lemma {:induction false} DeptIsTheFirstPart(key: NodeKey)
    ensures var d := DeptFromNodeKey(key); d <= key && '/' !in d && (|d| < |key| ==> key[|d|] == '/')
  {
    if key != "" && key[0] != '/' {
      DeptIsTheFirstPart(key[1..]);
    }
  }

  lemma {:induction false} DeptOfKey(d: DeptId, rest: string)
    requires '/' !in d
    ensures DeptFromNodeKey(d + "/" + rest) == d
  {
    var key := d + "/" + rest;
    if d == "" {
      assert key[0] == '/';
    } else {
      DeptOfKey(d[1..], rest);
      assert key[1..] == d[1..] + "/" + rest;
    }
  }
}
