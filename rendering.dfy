/**
  The numbered list the bot shows for "list", "edit" and "delete": a fixed
  header followed by one line `"<i>. <note>\n"` per note, counting from 1.
 */
module Rendering {
  import opened Text

  /** The line for the note at 1-based position `i`: `f"{i}. {note}\n"`. */
  function Entry(i: nat, note: string): (r: string)
    ensures |r| == |NatToString(i)| + |note| + 3
  {
    NatToString(i) + ". " + note + "\n"
  }

  /** The lines for `notes`, the first of them numbered `first`. */
  function Numbered(notes: seq<string>, first: nat): (r: string)
    ensures |r| >= 4 * |notes|
    ensures r == [] <==> notes == []
  {
    if notes == [] then [] else Entry(first, notes[0]) + Numbered(notes[1..], first + 1)
  }

  /** Rendering a longer list extends the rendering of its prefix by the new lines. */
  lemma {:induction false} NumberedAppend(a: seq<string>, b: seq<string>, first: nat)
    ensures Numbered(a + b, first) == Numbered(a, first) + Numbered(b, first + |a|)
  {
    if a == [] {
      assert a + b == b;
    } else {
      assert (a + b)[1..] == a[1..] + b;
      NumberedAppend(a[1..], b, first + 1);
    }
  }

  /** The note at 1-based position k is shown on a line of its own, numbered k. */
  lemma NumberedShowsEach(notes: seq<string>, k: nat)
    requires 1 <= k <= |notes|
    ensures Numbered(notes, 1) == Numbered(notes[..k - 1], 1) + (Entry(k, notes[k - 1]) + Numbered(notes[k..], k + 1))
  {
    var rest := notes[k - 1..];
    assert notes == notes[..k - 1] + rest;
    NumberedAppend(notes[..k - 1], rest, 1);
    assert rest[1..] == notes[k..];
  }

  /** One turn of the rendering loop appends the line of the note at position i. */
  lemma RenderStep(header: string, notes: seq<string>, i: nat)
    requires 1 <= i <= |notes|
    ensures header + Numbered(notes[..i], 1) == header + Numbered(notes[..i - 1], 1) + Entry(i, notes[i - 1])
  {
    assert notes[..i] == notes[..i - 1] + [notes[i - 1]];
    NumberedAppend(notes[..i - 1], [notes[i - 1]], 1);
    assert Numbered([notes[i - 1]], i) == Entry(i, notes[i - 1]);
  }

  /** The accumulating loop `for i, note in enumerate(notes, 1): msg += f"{i}. {note}\n"`. */
  method RenderList(header: string, notes: seq<string>) returns (msg: string)
    ensures msg == header + Numbered(notes, 1)
  {
    msg := header;
    var i := 1;
    while i <= |notes|
      invariant 1 <= i <= |notes| + 1
      invariant msg == header + Numbered(notes[..i - 1], 1)
    {
      msg := msg + Entry(i, notes[i - 1]);
      RenderStep(header, notes, i);
      i := i + 1;
    }
    assert notes[..i - 1] == notes;
  }

  /** An example: the rendering of two notes, as shown before a deletion. */
  lemma TwoNotesExample()
    ensures Numbered(["buy milk", "call mom"], 1) == "1. buy milk\n2. call mom\n"
  {
    var notes := ["buy milk", "call mom"];
    var e1, e2 := Entry(1, "buy milk"), Entry(2, "call mom");
    assert e1 == "1. buy milk\n" by {
      assert NatToString(1) == "1";
    }
    assert e2 == "2. call mom\n" by {
      assert NatToString(2) == "2";
    }
    assert notes[1..] == ["call mom"] && notes[1..][1..] == [];
    assert Numbered(notes[1..], 2) == e2;
    assert Numbered(notes, 1) == e1 + e2;
  }
}
