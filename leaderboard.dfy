/** The ranked top-10 table of src/leaderboard.rs and its key handling.

    The table is the fixed array `[([char; 16], u16); 10]`, here an array of ten entries
    whose names are 16 chars long. How the table is read from and written back into the
    program's own executable is not part of this model: the table arrives already loaded. */
module Leaderboard {
  import opened Wrappers
  import opened Numbers
  import Input

  const Capacity := 10
  const NameWidth := 16

  datatype Entry = Entry(name: seq<char>, score: U16)

  datatype LeaderboardAction = DoNothing | ReturnToMenu

  /** handle_key_press: only a press of 'q' leaves the leaderboard. */
  function HandleKeyPress(key: Input.KeyEvent): (r: LeaderboardAction)
    ensures r == ReturnToMenu <==> key == Input.KeyEvent(Input.Char('q'), Input.Press)
  {
    if key.kind != Input.Press then DoNothing
    else if key.code == Input.Char('q') then ReturnToMenu
    else DoNothing
  }

  /** The table compiled into the program: ten entries named "aaaaaaaaaaaaaaaa" with
      score 0. */
  const DefaultTable: seq<Entry> := seq(Capacity, _ => Entry(seq(NameWidth, _ => 'a'), 0))

  /** The compiled-in table is a well-formed ranking on which exactly the positive scores
      qualify, each at the top. */
  lemma DefaultTableShape(score: U16)
    ensures |DefaultTable| == Capacity && WellFormed(DefaultTable) && Sorted(DefaultTable)
    ensures InsertionPoint(DefaultTable, score) == if score > 0 then Some(0) else None
  {
    if score > 0 {
      assert score > DefaultTable[0].score;
    }
  }

  /** Every entry has a 16-char name. */
  predicate WellFormed(board: seq<Entry>) {
    forall i :: 0 <= i < |board| ==> |board[i].name| == NameWidth
  }

  /** Ranked from the highest score down. */
  predicate Sorted(board: seq<Entry>) {
    forall i, j :: 0 <= i < j < |board| ==> board[i].score >= board[j].score
  }

  /** The first index whose stored score is strictly below `score`, if there is one. */
  function InsertionPoint(board: seq<Entry>, score: U16): (r: Option<nat>)
    ensures r.Some? ==> r.value < |board| && score > board[r.value].score
    ensures r.Some? ==> forall j :: 0 <= j < r.value ==> board[j].score >= score
    ensures r.None? <==> forall j :: 0 <= j < |board| ==> board[j].score >= score
  {
    if board == [] then None
    else if score > board[0].score then Some(0)
    else match InsertionPoint(board[1..], score)
      case None => None
      case Some(k) => Some(k + 1)
  }

  /** The 16-char slot for a name of at most 16 chars: the name left-aligned, then spaces. */
  function SlotName(name: string): (r: seq<char>)
    requires |name| <= NameWidth
    ensures |r| == NameWidth && r[..|name|] == name
    ensures forall i :: |name| <= i < NameWidth ==> r[i] == ' '
  {
    name + seq(NameWidth - |name|, _ => ' ')
  }

  /** The table update_board leaves, for a name that fits its slot: the new entry goes in at
      the insertion point, the entries from there on move down one place, and the last one
      falls off; without an insertion point the table stays as it is. */
  function Inserted(board: seq<Entry>, name: string, score: nat): (r: seq<Entry>)
    requires |board| >= 1 && |name| <= NameWidth
  {
    match InsertionPoint(board, ToU16(score))
    case None => board
    case Some(k) => board[..k] + [Entry(SlotName(name), ToU16(score))] + board[k..|board| - 1]
  }

  /** Index by index: the entries before the insertion point stay, the new entry holds the
      padded name and the score, each later entry is the one that was one place higher,
      and the length stays the same. */
  lemma InsertedLayout(board: seq<Entry>, name: string, score: nat)
    requires |board| >= 1 && |name| <= NameWidth
    requires InsertionPoint(board, ToU16(score)).Some?
    ensures var k := InsertionPoint(board, ToU16(score)).value;
      var r := Inserted(board, name, score);
      && |r| == |board|
      && (forall j :: 0 <= j < k ==> r[j] == board[j])
      && r[k] == Entry(SlotName(name), ToU16(score))
      && (forall j :: k < j < |board| ==> r[j] == board[j - 1])
  {
  }

  /** A score no higher than every stored score leaves the table unchanged. */
  lemma NotQualifyingIsNoOp(board: seq<Entry>, name: string, score: nat)
    requires |board| >= 1 && |name| <= NameWidth
    requires forall j :: 0 <= j < |board| ==> board[j].score >= ToU16(score)
    ensures Inserted(board, name, score) == board
  {
  }

  /** Inserting keeps a ranked table ranked. */
  lemma InsertedKeepsSorted(board: seq<Entry>, name: string, score: nat)
    requires |board| >= 1 && |name| <= NameWidth && Sorted(board)
    ensures Sorted(Inserted(board, name, score))
  {
    var s := ToU16(score);
    match InsertionPoint(board, s)
    case None =>
    case Some(k) =>
      InsertedLayout(board, name, score);
      var r := Inserted(board, name, score);
      forall i, j | 0 <= i < j < |r| ensures r[i].score >= r[j].score {
        if j < k {
        } else if j == k {
          assert board[i].score >= s;
        } else if i < k {
          assert board[i].score >= board[j - 1].score;
        } else if i == k {
          assert s > board[k].score >= board[j - 1].score;
        } else {
          assert board[i - 1].score >= board[j - 1].score;
        }
      }
  }

  /** Splicing `e` in at `k` and cutting the last entry off exchanges one for the other. */
  lemma SpliceExchangesLast(board: seq<Entry>, k: nat, e: Entry)
    requires k < |board|
    ensures multiset(board[..k] + [e] + board[k..|board| - 1]) + multiset{board[|board| - 1]}
         == multiset(board) + multiset{e}
  {
    var n := |board|;
    var front, middle := board[..k], board[k..n - 1];
    assert board == front + middle + [board[n - 1]];
  }

  /** Inserting drops exactly the old last entry and adds exactly the new one. */
  lemma InsertedExchangesLast(board: seq<Entry>, name: string, score: nat)
    requires |board| >= 1 && |name| <= NameWidth
    requires InsertionPoint(board, ToU16(score)).Some?
    ensures multiset(Inserted(board, name, score)) + multiset{board[|board| - 1]}
         == multiset(board) + multiset{Entry(SlotName(name), ToU16(score))}
  {
    SpliceExchangesLast(board, InsertionPoint(board, ToU16(score)).value, Entry(SlotName(name), ToU16(score)));
  }

  /** Inserting keeps every name 16 chars long. */
  lemma InsertedWellFormed(board: seq<Entry>, name: string, score: nat)
    requires |board| >= 1 && |name| <= NameWidth && WellFormed(board)
    ensures WellFormed(Inserted(board, name, score)) && |Inserted(board, name, score)| == |board|
  {
    if InsertionPoint(board, ToU16(score)).Some? {
      InsertedLayout(board, name, score);
    }
  }

  /** Scores 50, 30 and 70 inserted in that order into the compiled-in table come out
      ranked 70, 50, 30 at the top. */
  lemma RankingExample()
    ensures var t := Inserted(Inserted(Inserted(DefaultTable, "x", 50), "y", 30), "z", 70);
      |t| == Capacity && t[0].score == 70 && t[1].score == 50 && t[2].score == 30
      && (forall j :: 3 <= j < Capacity ==> t[j].score == 0)
  {
    var t0 := DefaultTable;
    assert t0[0].score == 0;
    assert InsertionPoint(t0, 50) == Some(0);
    var t1 := Inserted(t0, "x", 50);
    InsertedLayout(t0, "x", 50);
    assert InsertionPoint(t1, 30) == Some(1);
    var t2 := Inserted(t1, "y", 30);
    InsertedLayout(t1, "y", 30);
    assert InsertionPoint(t2, 70) == Some(0);
    InsertedLayout(t2, "z", 70);
  }

  /** AppLeaderboardState's table (the drawing state and the executable's mapping are not
      modelled). */
  class Board {
    var entries: array<Entry>

    ghost predicate Valid()
      reads this, entries
    {
      entries.Length == Capacity && WellFormed(entries[..])
    }

    /** The table as read at start-up. */
    constructor (loaded: seq<Entry>)
      requires |loaded| == Capacity && WellFormed(loaded)
      ensures Valid() && fresh(entries) && entries[..] == loaded
    {
      entries := new Entry[Capacity](i requires 0 <= i < Capacity => loaded[i]);
    }

    /** The scan at the start of update_board: the index of the first entry whose score
        is strictly below `s`, or 11 when there is none. */
    method Rank(s: U16) returns (index: nat)
      requires Valid()
      ensures index == 11 <==> InsertionPoint(entries[..], s).None?
      ensures index != 11 ==> InsertionPoint(entries[..], s) == Some(index)
    {
      index := 11;
      var i := 0;
      while i < Capacity
        invariant 0 <= i <= Capacity
        invariant index == 11
        invariant forall j :: 0 <= j < i ==> entries[j].score >= s
      {
        if s > entries[i].score {
          index := i;
          break;
        }
        i := i + 1;
      }
    }

    /** The name's chars written one by one into a slot of 16 spaces. Writing a 17th char
        is out of the slot's bounds: `overflow` reports it, with the slot then holding the
        first 16 chars. */
    static method FillSlot(name: string) returns (slot: seq<char>, overflow: bool)
      ensures overflow <==> |name| > NameWidth
      ensures !overflow ==> slot == SlotName(name)
      ensures overflow ==> slot == name[..NameWidth]
    {
      var lname := new char[NameWidth](_ => ' ');
      var j := 0;
      while j < |name|
        invariant 0 <= j <= |name| && j <= NameWidth
        invariant forall m :: 0 <= m < j ==> lname[m] == name[m]
        invariant forall m :: j <= m < NameWidth ==> lname[m] == ' '
      {
        if j >= NameWidth {
          assert lname[..] == name[..NameWidth];
          return lname[..], true;
        }
        lname[j] := name[j];
        j := j + 1;
      }
      assert lname[..] == SlotName(name);
      return lname[..], false;
    }

    /** The end of update_board: the new entry is stored at `index` and the entries from
        there on are copied one place down from a copy of the old table, so the old last
        entry falls off. */
    method PlaceAt(index: nat, e: Entry)
      requires Valid() && index < Capacity
      modifies entries
      ensures entries[..] == old(entries[..])[..index] + [e] + old(entries[..])[index..Capacity - 1]
    {
      var localCopy := entries[..];
      entries[index] := e;
      for i := index + 1 to Capacity
        invariant forall m :: 0 <= m < index ==> entries[m] == localCopy[m]
        invariant entries[index] == e
        invariant forall m :: index < m < i ==> entries[m] == localCopy[m - 1]
      {
        entries[i] := localCopy[i - 1];
      }
      assert entries[..] == localCopy[..index] + [e] + localCopy[index..Capacity - 1];
    }

    /** update_board. `score` is the game's total_length, cast to u16 with saturation. A
        name longer than 16 chars overruns the 16-char slot when the score qualifies: the
        source panics there, after the first 16 chars were written into the slot, and
        `panicked` reports it. */
    method UpdateBoard(name: string, score: nat) returns (panicked: bool)
      requires Valid()
      modifies entries
      ensures Valid()
      ensures var k := InsertionPoint(old(entries[..]), ToU16(score));
        && panicked == (k.Some? && |name| > NameWidth)
        && (|name| <= NameWidth ==> entries[..] == Inserted(old(entries[..]), name, score))
        && (k.None? ==> entries[..] == old(entries[..]))
        && (panicked ==>
              entries[..] == old(entries[..])[k.value := Entry(name[..NameWidth], old(entries[k.value]).score)])
    {
      var s := ToU16(score);
      var index := Rank(s);
      if index == 11 {
        return false;
      }
      var slot, overflow := FillSlot(name);
      if overflow {
        entries[index] := Entry(slot, entries[index].score);
        return true;
      }
      PlaceAt(index, Entry(slot, s));
      InsertedWellFormed(old(entries[..]), name, score);
      panicked := false;
    }
  }
}
