// The lists of names that KeyMatch and ListNamespaces send as text, one name a line.

module KeyLists {
  import opened ByteStrings
  import opened Protocol
  import opened RawMessage

  // strings.Join(keys, "\n").
  function Join(keys: seq<Bytes>): Bytes {
    if keys == [] then []
    else if |keys| == 1 then keys[0]
    else Join(keys[..|keys| - 1]) + [NEWLINE] + keys[|keys| - 1]
  }

  // strings.Split(b, "\n").
  function Split(b: Bytes): (parts: seq<Bytes>)
    ensures parts != []
  {
    if b == [] then [[]]
    else
      var parts := Split(b[..|b| - 1]);
      var last := b[|b| - 1];
      if last == NEWLINE then parts + [[]] else parts[|parts| - 1 := parts[|parts| - 1] + [last]]
  }

  // What KeyMatch makes of the callback's bytes.
  function KeysOf(b: Bytes): seq<Bytes> {
    if Split(b)[0] == [] then [] else Split(b)
  }

  // A key that a newline-separated, trimmed, dot-terminated list can carry.
  ghost predicate Carriable(key: Bytes) {
    key != [] && NEWLINE !in key && key != [46] && !IsSpace(key[0]) && !IsSpace(key[|key| - 1])
  }

  lemma {:induction false} SplitOfLine(b: Bytes, line: Bytes)
    requires NEWLINE !in line
    ensures Split(b + [NEWLINE] + line) == Split(b) + [line]
    ensures Split(line) == [line]
  {
    if line == [] {
      assert (b + [NEWLINE] + line)[..|b|] == b;
    } else {
      var front, last := line[..|line| - 1], line[|line| - 1];
      assert line == front + [last];
      SplitOfLine(b, front);
      var whole := b + [NEWLINE] + line;
      assert whole[..|whole| - 1] == b + [NEWLINE] + front;
      var parts := Split(b) + [front];
      assert parts[|parts| - 1 := front + [last]] == Split(b) + [line];
    }
  }

  // Splitting a joined list of newline-free keys gives the list back.
  lemma {:induction false} SplitOfJoin(keys: seq<Bytes>)
    requires keys != [] && forall i | 0 <= i < |keys| :: NEWLINE !in keys[i]
    ensures Split(Join(keys)) == keys
  {
    var last := |keys| - 1;
    if last == 0 {
      SplitOfLine([], keys[0]);
    } else {
      SplitOfJoin(keys[..last]);
      SplitOfLine(Join(keys[..last]), keys[last]);
      assert keys == keys[..last] + [keys[last]];
    }
  }

  lemma {:induction false} JoinExtends(parts: seq<Bytes>, c: byte)
    requires parts != []
    ensures Join(parts[|parts| - 1 := parts[|parts| - 1] + [c]]) == Join(parts) + [c]
  {
    var last := |parts| - 1;
    var more := parts[last := parts[last] + [c]];
    assert more[..last] == parts[..last];
  }

  // Joining a split text gives the text back, and no line of it holds a newline.
  lemma {:induction false} JoinOfSplit(b: Bytes)
    ensures Join(Split(b)) == b
    ensures forall i | 0 <= i < |Split(b)| :: NEWLINE !in Split(b)[i]
  {
    if b != [] {
      var front, last := b[..|b| - 1], b[|b| - 1];
      JoinOfSplit(front);
      var parts := Split(front);
      if last == NEWLINE {
        assert (parts + [[]])[..|parts|] == parts;
      } else {
        JoinExtends(parts, last);
      }
    }
  }

  lemma JoinSnoc(keys: seq<Bytes>, key: Bytes)
    requires keys != []
    ensures Join(keys + [key]) == Join(keys) + [NEWLINE] + key
  {
    assert (keys + [key])[..|keys|] == keys;
  }

  // A list joined from two.
  lemma {:induction false} JoinOfBoth(a: seq<Bytes>, b: seq<Bytes>)
    requires a != [] && b != []
    ensures Join(a + b) == Join(a) + [NEWLINE] + Join(b)
  {
    var front, key := b[..|b| - 1], b[|b| - 1];
    assert b == front + [key];
    if front == [] {
      assert Join(b) == key;
      JoinSnoc(a, key);
    } else {
      hide Join;
      JoinOfBoth(a, front);
      JoinSnoc(front, key);
      JoinSnoc(a + front, key);
      assert a + b == (a + front) + [key];
      assert Join(a) + [NEWLINE] + Join(b) == Join(a) + [NEWLINE] + Join(front) + [NEWLINE] + key;
    }
  }

  // A joined list around one of its keys.
  lemma JoinAround(a: seq<Bytes>, key: Bytes, b: seq<Bytes>)
    requires a != []
    ensures Join(a + [key] + b) == Join(a) + [NEWLINE] + key + (if b == [] then [] else [NEWLINE] + Join(b))
  {
    hide Join;
    JoinSnoc(a, key);
    if b == [] {
      assert a + [key] + b == a + [key];
    } else {
      JoinOfBoth(a + [key], b);
    }
  }

  // ---- Stop symbols in a joined list ----

  // Only a key that is a single dot, with a key before it and a key after it, forms a stop
  // symbol, and only one with a key before it leaves half of one at the end.
  lemma {:induction false} OnlyDotKeysStop(keys: seq<Bytes>)
    requires keys != [] && forall i | 0 <= i < |keys| :: NEWLINE !in keys[i]
    requires forall i | 0 < i < |keys| - 1 :: keys[i] != [46]
    ensures forall i: nat :: !StopAt(Join(keys), i)
    ensures EndsWithDotLine(Join(keys)) ==> |keys| > 1 && keys[|keys| - 1] == [46]
  {
    var last := |keys| - 1;
    if last > 0 {
      OnlyDotKeysStop(keys[..last]);
      LineAfter(Join(keys[..last]), keys[last]);
    } else {
      LineAlone(keys[0]);
    }
  }

  lemma LineAlone(key: Bytes)
    requires NEWLINE !in key
    ensures (forall i: nat :: !StopAt(key, i)) && !EndsWithDotLine(key)
  {
    assert forall j | 0 <= j < |key| :: key[j] != NEWLINE;
  }

  lemma LineAfter(front: Bytes, key: Bytes)
    requires NEWLINE !in key && !EndsWithDotLine(front) && forall i: nat :: !StopAt(front, i)
    ensures forall i: nat :: !StopAt(front + [NEWLINE] + key, i)
    ensures EndsWithDotLine(front + [NEWLINE] + key) ==> key == [46]
  {
    var all := front + [NEWLINE] + key;
    assert forall j | 0 <= j < |key| :: key[j] != NEWLINE;
    forall i: nat
      ensures !StopAt(all, i)
    {
      if i + 2 <= |front| - 1 {
        assert !StopAt(front, i);
      } else if i > |front| && i < |all| {
        assert all[i] == key[i - |front| - 1];
      } else if i == |front| && i + 2 < |all| {
        assert all[i + 2] == key[1];
      }
    }
    if |key| >= 2 {
      assert all[|all| - 2] == key[|key| - 2];
    }
  }

  // A key without newlines or outer white space. A single dot is one.
  ghost predicate Plain(key: Bytes) {
    key != [] && NEWLINE !in key && !IsSpace(key[0]) && !IsSpace(key[|key| - 1])
  }

  lemma {:induction false} JoinOfPlain(keys: seq<Bytes>)
    requires keys != [] && forall i | 0 <= i < |keys| :: Plain(keys[i])
    ensures Join(keys) != [] && !IsSpace(Join(keys)[0]) && !IsSpace(Join(keys)[|Join(keys)| - 1])
  {
    var last := |keys| - 1;
    assert Plain(keys[last]);
    if last > 0 {
      JoinOfPlain(keys[..last]);
    }
  }

  // Carriable keys form no stop symbol, not even with a newline after them.
  lemma JoinHasNoStop(keys: seq<Bytes>)
    requires keys != [] && forall i | 0 <= i < |keys| :: Carriable(keys[i])
    ensures forall i | 0 <= i < |keys| :: NEWLINE !in keys[i]
    ensures forall i: nat :: !StopAt(Join(keys), i)
    ensures !EndsWithDotLine(Join(keys))
    ensures Join(keys) != [] && !IsSpace(Join(keys)[0]) && !IsSpace(Join(keys)[|Join(keys)| - 1])
  {
    assert forall i | 0 <= i < |keys| :: Carriable(keys[i]) && Plain(keys[i]);
    OnlyDotKeysStop(keys);
    JoinOfPlain(keys);
  }

  // ---- Trimming ----

  lemma {:induction false} TrimLeftSnoc(b: Bytes, c: byte)
    requires IsSpace(c)
    ensures TrimLeft(b + [c]) == if TrimLeft(b) == [] then [] else TrimLeft(b) + [c]
  {
    if b == [] {
      assert [] + [c] == [c] && [c][1..] == [];
    } else if IsSpace(b[0]) {
      assert (b + [c])[1..] == b[1..] + [c];
      TrimLeftSnoc(b[1..], c);
    }
  }

  // White space at the end is trimmed away.
  lemma {:induction false} TrimIgnoresEnd(b: Bytes, n: nat)
    requires n <= |b| && AllSpace(b[n..])
    ensures Trim(b) == Trim(b[..n])
    decreases |b|
  {
    if n == |b| {
      assert b[..n] == b;
    } else {
      var front, last := b[..|b| - 1], b[|b| - 1];
      assert b == front + [last] && b[n..][|b| - 1 - n] == last;
      assert front[n..] == b[n..][..|b| - 1 - n] && front[..n] == b[..n];
      TrimIgnoresEnd(front, n);
      TrimLeftSnoc(front, last);
      var left := TrimLeft(front);
      if left != [] {
        assert (left + [last])[..|left|] == left;
      }
    }
  }

  // `left` is `b` without some white space in front.
  ghost predicate TrimmedLeft(b: Bytes, left: Bytes) {
    && |left| <= |b| && left == b[|b| - |left|..]
    && (left != [] ==> !IsSpace(left[0]))
    && AllSpace(b[..|b| - |left|])
  }

  lemma {:induction false} TrimLeftIsTrimmed(b: Bytes)
    ensures TrimmedLeft(b, TrimLeft(b))
  {
    if b == [] || !IsSpace(b[0]) {
      assert TrimLeft(b) == b == b[0..] && b[..0] == [];
    } else {
      assert TrimLeft(b) == TrimLeft(b[1..]);
      hide *;
      TrimLeftIsTrimmed(b[1..]);
      SpaceInFront(b, TrimLeft(b[1..]));
    }
  }

  lemma SpaceInFront(b: Bytes, left: Bytes)
    requires b != [] && IsSpace(b[0]) && TrimmedLeft(b[1..], left)
    ensures TrimmedLeft(b, left)
  {
    var n := |b| - |left|;
    assert b[1..][n - 1..] == b[n..];
    assert forall i | 0 < i < n :: b[i] == b[1..][..n - 1][i - 1];
  }

  lemma TrimLeftIsSuffix(b: Bytes)
    ensures |TrimLeft(b)| <= |b| && TrimLeft(b) == b[|b| - |TrimLeft(b)|..]
    ensures TrimLeft(b) != [] ==> !IsSpace(TrimLeft(b)[0])
    ensures AllSpace(b[..|b| - |TrimLeft(b)|])
  {
    TrimLeftIsTrimmed(b);
    hide TrimLeft;
  }

  // Trimming cuts white space off both ends, all of it and nothing else.
  lemma TrimIs(b: Bytes) returns (from: nat, to: nat)
    ensures from <= to <= |b| && Trim(b) == b[from..to]
    ensures AllSpace(b[..from]) && AllSpace(b[to..])
    ensures from < to ==> !IsSpace(b[from]) && !IsSpace(b[to - 1])
  {
    var left := TrimLeft(b);
    TrimLeftIsSuffix(b);
    TrimRightIsPrefix(left);
    TrimRightCuts(left);
    from := |b| - |left|;
    to := from + |TrimRight(left)|;
    hide TrimLeft, TrimRight;
    assert b[from..][..|TrimRight(left)|] == b[from..to];
    assert forall i | 0 <= i < |b| - to :: b[to..][i] == left[to - from + i];
    if from < to {
      assert b[from] == left[0] && b[to - 1] == left[to - from - 1];
    }
  }

  // What is left after trimming starts and ends with something else than white space.
  lemma TrimIsTidy(b: Bytes)
    ensures |Trim(b)| <= |b|
    ensures Trim(b) != [] ==> !IsSpace(Trim(b)[0]) && !IsSpace(Trim(b)[|Trim(b)| - 1])
  {
    TrimLeftIsSuffix(b);
    TrimRightIsPrefix(TrimLeft(b));
    TrimRightCuts(TrimLeft(b));
  }

  lemma TrimOfTidy(b: Bytes)
    requires b != [] && !IsSpace(b[0]) && !IsSpace(b[|b| - 1])
    ensures Trim(b) == b && TrimRight(b) == b
  {
  }

  lemma TrimOfAllSpace(b: Bytes)
    requires AllSpace(b)
    ensures Trim(b) == []
  {
    assert b[0..] == b && b[..0] == [];
    TrimIgnoresEnd(b, 0);
  }
}
