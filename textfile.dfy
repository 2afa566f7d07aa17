/** A text file opened for writing, and the lines a writer means to put in it.
    A writer computes each line before writing it; when computing a line
    raises, nothing more is written and the file keeps what came before. */
module TextFiles {

  /** An open text file: `open(path, 'w')` empties it, `f.write(s)` appends. */
  class TextFile {
    var contents: string

    constructor ()
      ensures contents == ""
    {
      contents := "";
    }

    /** Opening for writing truncates. */
    method Truncate()
      modifies this
      ensures contents == ""
    {
      contents := "";
    }

    method Write(s: string)
      modifies this
      ensures contents == old(contents) + s
    {
      contents := contents + s;
    }
  }

  /** One line a writer produces: its text, or the exception raised while
      computing it. */
  datatype Line = Text(s: string) | Raise

  /** No line raises. */
  predicate Completed(ls: seq<Line>) {
    forall i :: 0 <= i < |ls| ==> ls[i].Text?
  }

  /** What ends up in the file: the lines before the first one that raises. */
  function Written(ls: seq<Line>): string
    decreases |ls|
  {
    if ls == [] || ls[0].Raise? then "" else ls[0].s + Written(ls[1..])
  }

  /** A document made of consecutive sections. */
  function Flatten(ss: seq<seq<Line>>): seq<Line>
    decreases |ss|
  {
    if ss == [] then [] else ss[0] + Flatten(ss[1..])
  }

  /** Writing two blocks of lines writes the second only when the first
      completes. */
  lemma {:induction false} WrittenAppend(a: seq<Line>, b: seq<Line>)
    ensures Written(a + b) == if Completed(a) then Written(a) + Written(b) else Written(a)
    ensures Completed(a + b) <==> Completed(a) && Completed(b)
    decreases |a|
  {
    if a == [] {
      assert a + b == b;
    } else {
      assert (a + b)[1..] == a[1..] + b;
      if a[0].Text? {
        WrittenAppend(a[1..], b);
        assert Completed(a) <==> Completed(a[1..]) by {
          if Completed(a[1..]) {
            forall i | 0 <= i < |a|
              ensures a[i].Text?
            {
              if i > 0 {
                assert a[i] == a[1..][i - 1];
              }
            }
          }
        }
      }
    }
  }

  /** A single line writes its text. */
  lemma WrittenOne(s: string)
    ensures Written([Text(s)]) == s
    ensures Completed([Text(s)])
  {
    assert [Text(s)][1..] == [];
    assert s + "" == s;
  }

  /** Writing `a` then `b` after `start`: what the file holds, in the form a
      writer that appends block by block sees it. */
  lemma WriteMore(start: string, a: seq<Line>, b: seq<Line>)
    ensures Completed(a) ==> start + Written(a + b) == (start + Written(a)) + Written(b)
    ensures !Completed(a) ==> Written(a + b) == Written(a)
    ensures Completed(a + b) <==> Completed(a) && Completed(b)
  {
    WrittenAppend(a, b);
  }

  /** A flattened document completes exactly when every section does. */
  lemma {:induction false} FlattenCompleted(ss: seq<seq<Line>>)
    ensures Completed(Flatten(ss)) <==> forall i :: 0 <= i < |ss| ==> Completed(ss[i])
    decreases |ss|
  {
    if ss != [] {
      FlattenCompleted(ss[1..]);
      WrittenAppend(ss[0], Flatten(ss[1..]));
      assert forall i :: 1 <= i < |ss| ==> ss[i] == ss[1..][i - 1];
    }
  }

  /** Flattening distributes over joined section lists. */
  lemma {:induction false} FlattenAppend(a: seq<seq<Line>>, b: seq<seq<Line>>)
    ensures Flatten(a + b) == Flatten(a) + Flatten(b)
    decreases |a|
  {
    if a == [] {
      assert a + b == b;
    } else {
      assert (a + b)[1..] == a[1..] + b;
      FlattenAppend(a[1..], b);
    }
  }

  /** Sections of one line each at the front of a document are its first
      lines. */
  lemma {:induction false} FlattenSingletons(ss: seq<seq<Line>>, n: nat)
    requires n <= |ss| && forall k :: 0 <= k < n ==> |ss[k]| == 1
    ensures |Flatten(ss)| >= n
    ensures forall k :: 0 <= k < n ==> Flatten(ss)[k] == ss[k][0]
    decreases n
  {
    if n > 0 {
      FlattenSingletons(ss[1..], n - 1);
      assert forall k :: 1 <= k < n ==> ss[1..][k - 1] == ss[k];
    }
  }

  /** `written` is what a writer has put in the file so far, and the sections
      from `i` on remain: the whole document then writes `written` followed by
      what the remaining sections write. */
  predicate Tracks(doc: seq<Line>, written: string, ss: seq<seq<Line>>, i: nat) {
    i <= |ss|
    && Written(doc) == written + Written(Flatten(ss[i..]))
    && (Completed(doc) <==> Completed(Flatten(ss[i..])))
  }

  /** Before anything is written, every section remains. */
  lemma TracksStart(doc: seq<Line>, ss: seq<seq<Line>>)
    requires doc == Flatten(ss)
    ensures Tracks(doc, "", ss, 0)
  {
    assert ss[0..] == ss;
    assert "" + Written(doc) == Written(doc);
  }

  /** A line followed by one that raises writes the first line only. */
  lemma WrittenThenRaise(s: string)
    ensures Written([Text(s), Raise]) == s
    ensures !Completed([Text(s), Raise])
  {
    assert [Text(s), Raise][1..] == [Raise];
    assert s + "" == s;
  }

  /** Writing a completed section moves on to the next one. */
  lemma TracksStep(doc: seq<Line>, written: string, ss: seq<seq<Line>>, i: nat)
    requires i < |ss| && Tracks(doc, written, ss, i) && Completed(ss[i])
    ensures Tracks(doc, written + Written(ss[i]), ss, i + 1)
  {
    assert ss[i..][1..] == ss[i + 1..];
    WrittenAppend(ss[i], Flatten(ss[i + 1..]));
  }

  /** A section that raises ends the document. */
  lemma TracksStop(doc: seq<Line>, written: string, ss: seq<seq<Line>>, i: nat)
    requires i < |ss| && Tracks(doc, written, ss, i) && !Completed(ss[i])
    ensures Written(doc) == written + Written(ss[i])
    ensures !Completed(doc)
  {
    assert ss[i..][1..] == ss[i + 1..];
    WrittenAppend(ss[i], Flatten(ss[i + 1..]));
  }

  /** Where a writer stands after section `i - 1`: when it went on, the
      sections from `i` remain; when it stopped, the file holds all the
      document writes and the document does not complete. */
  predicate Progress(doc: seq<Line>, written: string, ok: bool, ss: seq<seq<Line>>, i: nat) {
    (ok ==> Tracks(doc, written, ss, i))
    && (!ok ==> Written(doc) == written && !Completed(doc))
  }

  /** Writing section `i` and reporting whether it completed. */
  lemma Advance(doc: seq<Line>, written: string, ss: seq<seq<Line>>, i: nat, after: string, ok: bool)
    requires i < |ss| && Tracks(doc, written, ss, i)
    requires after == written + Written(ss[i]) && (ok <==> Completed(ss[i]))
    ensures Progress(doc, after, ok, ss, i + 1)
  {
    if ok {
      TracksStep(doc, written, ss, i);
    } else {
      TracksStop(doc, written, ss, i);
    }
  }

  /** After the last section, the file holds the whole document. */
  lemma TracksDone(doc: seq<Line>, written: string, ss: seq<seq<Line>>)
    requires Tracks(doc, written, ss, |ss|)
    ensures Written(doc) == written && Completed(doc)
  {
    assert ss[|ss|..] == [];
  }
}
