/**
 * The credential pool: a newline-separated blob of API keys kept in browser
 * storage, a set of keys found to be bad, and the per-task choice of a key.
 */
module Keys {
  import opened Wrappers
  import opened Strings

  /** `TaskType`. */
  datatype Task = Tts | ImageVideo | Translate

  /** The rows of a stored blob that hold a key: each line trimmed, blank lines dropped. */
  function KeyList(blob: string): seq<string>
  {
    NonBlankRows(SplitOn(blob, "\n"))
  }

  function NonBlankRows(lines: seq<string>): (r: seq<string>)
    ensures |r| <= |lines|
  {
    if lines == [] then []
    else
      var k := Trim(lines[0]);
      (if k == [] then [] else [k]) + NonBlankRows(lines[1..])
  }

  /** Every listed key is non-empty and carries no surrounding white space. */
  lemma {:induction false} NonBlankRowsShape(lines: seq<string>)
    ensures forall k :: k in NonBlankRows(lines) ==> k != [] && IsTrimmed(k)
  {
    if lines != [] {
      NonBlankRowsShape(lines[1..]);
    }
  }

  lemma KeyListShape(blob: string)
    ensures forall k :: k in KeyList(blob) ==> k != [] && IsTrimmed(k)
  {
    NonBlankRowsShape(SplitOn(blob, "\n"));
  }

  /**
   * Reading one line in front of the rest: a blank line adds no key, so key
   * indices count the non-blank rows only; any other line adds its trimmed
   * self in front.
   */
  lemma KeyListCons(line: string, rest: string)
    requires '\n' !in line
    ensures KeyList(line + "\n" + rest) == (if AllWhite(line) then [] else [Trim(line)]) + KeyList(rest)
  {
    NoEarlyMatchChar(line, '\n');
    SplitOnFirst(line, "\n", rest);
    var lines := SplitOn(line + "\n" + rest, "\n");
    assert lines[0] == line && lines[1..] == SplitOn(rest, "\n");
  }

  /** Saving keys one per line and reading them back gives the same keys, in order. */
  lemma {:induction false} KeyListJoin(keys: seq<string>)
    requires forall k :: k in keys ==> k != [] && IsTrimmed(k) && '\n' !in k
    ensures KeyList(Join(keys, "\n")) == keys
  {
    if keys == [] {
      assert SplitOn([], "\n") == [[]];
    } else {
      SplitOnJoin(keys, '\n');
      KeyRowsBack(keys);
      calc {
        KeyList(Join(keys, "\n"));
        NonBlankRows(SplitOn(Join(keys, "\n"), "\n"));
        NonBlankRows(keys);
      }
    }
  }

  lemma {:induction false} KeyRowsBack(keys: seq<string>)
    requires forall k :: k in keys ==> k != [] && IsTrimmed(k)
    ensures NonBlankRows(keys) == keys
  {
    if keys != [] {
      assert keys[0] in keys;
      assert forall k :: k in keys[1..] ==> k in keys;
      KeyRowsBack(keys[1..]);
      assert [keys[0]] + keys[1..] == keys;
    }
  }

  /** The row holding each task's own key: row 1 for speech, row 2 for images and video, row 3 for translation. */
  function PrimaryIndex(task: Task): nat
  {
    match task
    case Tts => 0
    case ImageVideo => 1
    case Translate => 2
  }

  /** `keys[i] || ''`. */
  function KeyAt(keys: seq<string>, i: nat): string
  {
    if i < |keys| then keys[i] else ""
  }

  /** Where the shared fallback pool starts: after the translation row for translation, after the image row otherwise. */
  function FallbackStart(task: Task): nat
  {
    if task == Translate then 3 else 2
  }

  /** `keys.slice(start)`. */
  function FallbackPool(keys: seq<string>, task: Task): seq<string>
  {
    if FallbackStart(task) <= |keys| then keys[FallbackStart(task)..] else []
  }

  /** The first key of `pool` that is not bad. */
  function FirstGood(pool: seq<string>, bad: set<string>): Option<string>
  {
    if pool == [] then None
    else if pool[0] !in bad then Some(pool[0])
    else FirstGood(pool[1..], bad)
  }

  /** The first good key is the one at the first index whose key is not bad. */
  lemma {:induction false} FirstGoodAt(pool: seq<string>, bad: set<string>, i: nat)
    requires i < |pool| && pool[i] !in bad
    requires forall j :: 0 <= j < i ==> pool[j] in bad
    ensures FirstGood(pool, bad) == Some(pool[i])
  {
    if i > 0 {
      FirstGoodAt(pool[1..], bad, i - 1);
    }
  }

  /** With every key bad there is no first good one. */
  lemma {:induction false} FirstGoodNone(pool: seq<string>, bad: set<string>)
    requires forall j :: 0 <= j < |pool| ==> pool[j] in bad
    ensures FirstGood(pool, bad) == None
  {
    if pool != [] {
      FirstGoodNone(pool[1..], bad);
    }
  }

  /** A first good key is a key of the pool that is not bad. */
  lemma {:induction false} FirstGoodIn(pool: seq<string>, bad: set<string>)
    ensures FirstGood(pool, bad).Some? ==> FirstGood(pool, bad).value in pool && FirstGood(pool, bad).value !in bad
    ensures FirstGood(pool, bad).None? ==> forall j :: 0 <= j < |pool| ==> pool[j] in bad
  {
    if pool != [] && pool[0] in bad {
      FirstGoodIn(pool[1..], bad);
      forall j | 0 < j < |pool| ensures pool[j] in bad ==> pool[j] == pool[1..][j - 1] {
      }
    }
  }

  /**
   * `getKey`'s choice for `task` from the listed `keys`, the `bad` set and the
   * environment key `env` (`""` when unset).
   */
  function ChooseKey(keys: seq<string>, bad: set<string>, task: Task, env: string): string
  {
    if task != Tts && env != "" then env
    else
      var primary := KeyAt(keys, PrimaryIndex(task));
      if primary != "" && primary !in bad then primary
      else match FirstGood(FallbackPool(keys, task), bad)
        case Some(k) => k
        case None => LastResort(keys, task, env)
  }

  /** `API_KEY || primaryKey || keys[0] || ''`. */
  function LastResort(keys: seq<string>, task: Task, env: string): string
  {
    var primary := KeyAt(keys, PrimaryIndex(task));
    if env != "" then env else if primary != "" then primary else KeyAt(keys, 0)
  }

  /**
   * The choice is never a key known to be bad unless no candidate was left:
   * a bad result is the last resort, and unless it is the environment key
   * the task's own key is missing or bad and every key of the fallback pool
   * is bad.
   */
  lemma ChooseKeyAvoidsBad(keys: seq<string>, bad: set<string>, task: Task, env: string)
    requires ChooseKey(keys, bad, task, env) in bad
    ensures !(task != Tts && env != "") ==>
      (KeyAt(keys, PrimaryIndex(task)) == "" || KeyAt(keys, PrimaryIndex(task)) in bad)
    ensures !(task != Tts && env != "") ==> forall k :: k in FallbackPool(keys, task) ==> k in bad
    ensures ChooseKey(keys, bad, task, env) == LastResort(keys, task, env)
  {
    var pool := FallbackPool(keys, task);
    FirstGoodIn(pool, bad);
    if task != Tts && env != "" {
    } else if KeyAt(keys, PrimaryIndex(task)) != "" && KeyAt(keys, PrimaryIndex(task)) !in bad {
    } else {
      forall k | k in pool ensures k in bad {
        var j :| 0 <= j < |pool| && pool[j] == k;
      }
    }
  }

  /**
   * Which key is chosen: for images, video and translation a set environment
   * key comes first; then the task's own row if it holds a key that is not
   * bad; then the first key of the fallback pool that is not bad.
   */
  lemma ChooseKeyOrder(keys: seq<string>, bad: set<string>, task: Task, env: string)
    ensures task != Tts && env != "" ==> ChooseKey(keys, bad, task, env) == env
    ensures (!(task != Tts && env != "") && PrimaryIndex(task) < |keys| && keys[PrimaryIndex(task)] != []
              && keys[PrimaryIndex(task)] !in bad)
      ==> ChooseKey(keys, bad, task, env) == keys[PrimaryIndex(task)]
    ensures (!(task != Tts && env != "") && (KeyAt(keys, PrimaryIndex(task)) == "" || KeyAt(keys, PrimaryIndex(task)) in bad))
      ==> (forall i :: (FallbackStart(task) <= i < |keys| && keys[i] !in bad
                        && (forall j :: FallbackStart(task) <= j < i ==> keys[j] in bad))
             ==> ChooseKey(keys, bad, task, env) == keys[i])
  {
    var s := FallbackStart(task);
    forall i | s <= i < |keys| && keys[i] !in bad && (forall j :: s <= j < i ==> keys[j] in bad)
      ensures FirstGood(FallbackPool(keys, task), bad) == Some(keys[i])
    {
      var pool := FallbackPool(keys, task);
      forall j | 0 <= j < i - s ensures pool[j] in bad {
        assert pool[j] == keys[s + j];
      }
      FirstGoodAt(pool, bad, i - s);
    }
  }

  /** `KeyManager`: the stored blob stands for the browser storage entry. */
  class KeyManager {
    var stored: string
    var badKeys: set<string>

    constructor(blob: string)
      ensures stored == blob && badKeys == {}
    {
      stored := blob;
      badKeys := {};
    }

    /** `getKeysRaw`. */
    function KeysRaw(): string
      reads this
    {
      stored
    }

    /** `getAllKeys`. */
    function AllKeys(): (r: seq<string>)
      reads this
      ensures forall k :: k in r ==> k != [] && IsTrimmed(k)
    {
      KeyListShape(stored);
      KeyList(stored)
    }

    /** `saveKeys`: replaces the blob and forgets which keys were bad. */
    method SaveKeys(keysString: string)
      modifies this
      ensures stored == keysString && badKeys == {}
    {
      stored := keysString;
      badKeys := {};
    }

    /** `markKeyAsBad`: the empty key is ignored. */
    method MarkKeyAsBad(key: string)
      modifies this
      ensures stored == old(stored)
      ensures badKeys == if key != "" then old(badKeys) + {key} else old(badKeys)
    {
      if key != "" {
        badKeys := badKeys + {key};
      }
    }

    /** The fallback loop of `getKey`: the first key of `pool` not marked bad. */
    method FirstUsable(pool: seq<string>) returns (found: Option<string>)
      ensures found == FirstGood(pool, badKeys)
    {
      for i := 0 to |pool|
        invariant forall j :: 0 <= j < i ==> pool[j] in badKeys
      {
        if pool[i] !in badKeys {
          FirstGoodAt(pool, badKeys, i);
          return Some(pool[i]);
        }
      }
      FirstGoodNone(pool, badKeys);
      return None;
    }

    /** `getKey`, with the environment key `env` (`""` when unset). */
    method GetKey(task: Task, env: string) returns (key: string)
      ensures key == ChooseKey(AllKeys(), badKeys, task, env)
    {
      if (task == ImageVideo || task == Translate) && env != "" {
        return env;
      }
      var keys := AllKeys();
      var primaryKey := "";
      if task == Tts {
        primaryKey := KeyAt(keys, 0);
      } else if task == ImageVideo {
        primaryKey := KeyAt(keys, 1);
      } else {
        primaryKey := KeyAt(keys, 2);
      }
      assert primaryKey == KeyAt(keys, PrimaryIndex(task));
      if primaryKey != "" && primaryKey !in badKeys {
        return primaryKey;
      }
      var fallbackStartIndex := if task == Translate then 3 else 2;
      var fallbackPool := if fallbackStartIndex <= |keys| then keys[fallbackStartIndex..] else [];
      assert fallbackPool == FallbackPool(keys, task);
      var found := FirstUsable(fallbackPool);
      if found.Some? {
        return found.value;
      }
      key := if env != "" then env else if primaryKey != "" then primaryKey else KeyAt(keys, 0);
      assert key == LastResort(keys, task, env);
    }
  }

  /**
   * After a key is marked bad, `getKey` hands it out again only as the last
   * resort, when no other candidate is left.
   */
  lemma MarkedKeyAvoided(keys: seq<string>, bad: set<string>, key: string, task: Task, env: string)
    requires key != ""
    requires ChooseKey(keys, bad + {key}, task, env) == key
    ensures key == LastResort(keys, task, env)
    ensures !(task != Tts && env != "") ==> forall k :: k in FallbackPool(keys, task) ==> k in bad + {key}
  {
    ChooseKeyAvoidsBad(keys, bad + {key}, task, env);
  }
}
