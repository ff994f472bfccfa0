/** The first line of a helper's report that yields a reading, the pattern
    both report parsers follow: a reading is set once, from the first line
    that yields a value, and later lines never change it. */
module FirstValues {
  import opened Wrappers
  import FloatText

  type Float = FloatText.Float

  /** What `read` yields for each line. */
  function Values(lines: seq<string>, read: string -> Option<Float>): (vs: seq<Option<Float>>)
    ensures |vs| == |lines|
    ensures forall i :: 0 <= i < |lines| ==> vs[i] == read(lines[i])
  {
    seq(|lines|, i requires 0 <= i < |lines| => read(lines[i]))
  }

  /** The first value present in `vs`. */
  function FirstSome(vs: seq<Option<Float>>): Option<Float>
    decreases |vs|
  {
    if |vs| == 0 then None
    else if vs[0].Some? then vs[0]
    else FirstSome(vs[1..])
  }

  /** The value `read` yields on the first line that yields one. */
  function FirstValue(lines: seq<string>, read: string -> Option<Float>): Option<Float> {
    FirstSome(Values(lines, read))
  }

  /** Extending `vs` keeps a value already found, and otherwise takes the new one. */
  lemma {:induction false} FirstSomeSnoc(vs: seq<Option<Float>>, v: Option<Float>)
    ensures FirstSome(vs + [v]) == if FirstSome(vs).Some? then FirstSome(vs) else v
    decreases |vs|
  {
    if |vs| == 0 {
      assert vs + [v] == [v];
    } else {
      assert (vs + [v])[1..] == vs[1..] + [v];
      FirstSomeSnoc(vs[1..], v);
    }
  }

  /** Values after the first one present do not change the result. */
  lemma {:induction false} FirstSomeKept(vs: seq<Option<Float>>, more: seq<Option<Float>>)
    requires FirstSome(vs).Some?
    ensures FirstSome(vs + more) == FirstSome(vs)
    decreases |vs|
  {
    if vs[0].None? {
      assert (vs + more)[1..] == vs[1..] + more;
      FirstSomeKept(vs[1..], more);
    }
  }

  /** `FirstSomeKept` for a loop that stops after the prefix `vs[..i]`. */
  lemma {:induction false} FirstSomeStop(vs: seq<Option<Float>>, i: nat)
    requires i <= |vs| && FirstSome(vs[..i]).Some?
    ensures FirstSome(vs) == FirstSome(vs[..i])
  {
    assert vs == vs[..i] + vs[i..];
    FirstSomeKept(vs[..i], vs[i..]);
  }

  /** The prefix `lines[..i + 1]` yields what `lines[..i]` yields, or else
      what line `i` yields. */
  lemma {:induction false} FirstValueStep(lines: seq<string>, i: nat, read: string -> Option<Float>)
    requires i < |lines|
    ensures FirstValue(lines[..i + 1], read)
              == if FirstValue(lines[..i], read).Some? then FirstValue(lines[..i], read) else read(lines[i])
  {
    var before, after := Values(lines[..i], read), Values(lines[..i + 1], read);
    assert after == before + [read(lines[i])] by {
      assert forall j :: 0 <= j < i ==> after[j] == before[j];
    }
    FirstSomeSnoc(before, read(lines[i]));
  }

  /** A scan that stops at the end of the lines, or after a prefix that
      already yields a value, has found the value of all the lines. */
  lemma {:induction false} FirstValueDone(lines: seq<string>, i: nat, read: string -> Option<Float>, v: Option<Float>)
    requires i <= |lines| && v == FirstValue(lines[..i], read)
    requires i == |lines| || v.Some?
    ensures v == FirstValue(lines, read)
  {
    if i == |lines| {
      assert lines[..i] == lines;
    } else {
      var whole, prefix := Values(lines, read), Values(lines[..i], read);
      assert whole[..i] == prefix;
      FirstSomeStop(whole, i);
    }
  }

  /** `FirstSome` finds a value exactly when one is present; it is the
      first one present. */
  lemma {:induction false} FirstSomeIsFirst(vs: seq<Option<Float>>)
    ensures FirstSome(vs).Some? <==> exists i :: 0 <= i < |vs| && vs[i].Some?
    ensures FirstSome(vs).Some? ==>
              exists i :: 0 <= i < |vs| && vs[i] == FirstSome(vs) && forall j :: 0 <= j < i ==> vs[j].None?
    decreases |vs|
  {
    if |vs| > 0 {
      var tail := vs[1..];
      FirstSomeIsFirst(tail);
      if vs[0].None? {
        if exists i :: 0 <= i < |vs| && vs[i].Some? {
          var i :| 0 <= i < |vs| && vs[i].Some?;
          assert tail[i - 1] == vs[i];
        }
        if FirstSome(vs).Some? {
          var i :| 0 <= i < |tail| && tail[i] == FirstSome(vs) && forall j :: 0 <= j < i ==> tail[j].None?;
          assert vs[i + 1] == tail[i];
          forall j | 0 <= j < i + 1 ensures vs[j].None? {
            if j > 0 { assert vs[j] == tail[j - 1]; }
          }
        }
      }
    }
  }

  /** `FirstValue` finds a value exactly when some line yields one; it is that
      line's value, and every earlier line yields nothing. */
  lemma {:induction false} FirstValueIsFirst(lines: seq<string>, read: string -> Option<Float>)
    ensures FirstValue(lines, read).Some? <==> exists i :: 0 <= i < |lines| && read(lines[i]).Some?
    ensures FirstValue(lines, read).Some? ==>
              exists i :: 0 <= i < |lines| && read(lines[i]) == FirstValue(lines, read)
                && forall j :: 0 <= j < i ==> read(lines[j]).None?
  {
    FirstSomeIsFirst(Values(lines, read));
  }

}
