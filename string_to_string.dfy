/** The `key=value,key=value` command-line flag value (context/string_to_string.go):
    Set parses the text into the map it wraps, String prints the map back. */
module StringToString {
  import opened Prelude

  const FormatError: string := " must be formatted as key=value"

  /** The outcome of Set: the map afterwards and the error, if any. */
  datatype SetOutcome = SetOutcome(value: map<string, string>, err: Option<string>)

  /** The pieces, applied one after another; a piece without '=' stops with an
      error naming it, keeping what the earlier pieces wrote. */
  function ApplyPieces(m: map<string, string>, pieces: seq<string>): SetOutcome
    decreases |pieces|
  {
    if |pieces| == 0 then SetOutcome(m, None)
    else match CutFirst(pieces[0], '=')
      case None => SetOutcome(m, Some(pieces[0] + FormatError))
      case Some(kv) => ApplyPieces(m[TrimSpace(kv.0) := TrimSpace(kv.1)], pieces[1..])
  }

  /** The key a well-formed piece writes, and the value it writes there. */
  function PieceKey(piece: string): string
    requires '=' in piece
  {
    TrimSpace(CutFirst(piece, '=').value.0)
  }

  function PieceValue(piece: string): string
    requires '=' in piece
  {
    TrimSpace(CutFirst(piece, '=').value.1)
  }

  predicate WellFormed(pieces: seq<string>)
  {
    forall i :: 0 <= i < |pieces| ==> '=' in pieces[i]
  }

  /** The text for one entry, and the entries in the given order. */
  function Entry(k: string, v: string): string
  {
    k + "=" + v
  }

  function Entries(m: map<string, string>, order: seq<string>): (es: seq<string>)
    requires forall i :: 0 <= i < |order| ==> order[i] in m
    ensures |es| == |order|
    ensures forall i :: 0 <= i < |order| ==> es[i] == Entry(order[i], m[order[i]])
  {
    seq(|order|, i requires 0 <= i < |order| => Entry(order[i], m[order[i]]))
  }

  /** Each entry followed by a comma: what String's buffer holds before the trim. */
  function Terminated(es: seq<string>): string
  {
    if |es| == 0 then "" else Terminated(es[..|es| - 1]) + es[|es| - 1] + ","
  }

  /** A Go map[string]string: a reference, so every holder of it sees the
      writes made through any other. */
  class StringMap {
    var entries: map<string, string>

    constructor (entries: map<string, string>)
      ensures this.entries == entries
    {
      this.entries := entries;
    }
  }

  /** Registering a package map as a flag: the map is wrapped, and a value
      given on the command line is written into that same map. */
  method SetThroughWrapper(target: StringMap, val: string) returns (err: Option<string>)
    modifies target
    ensures SetOutcome(target.entries, err) == ApplyPieces(old(target.entries), Split(val, ','))
  {
    var flag := new StringToStringValue(target);
    err := flag.Set(val);
  }

  class StringToStringValue {
    /** The caller's map itself, not a copy. */
    const value: StringMap
    var changed: bool

    /** newStringToStringValue: wraps the caller's map. */
    constructor (p: StringMap)
      ensures value == p && !changed
      ensures p.entries == old(p.entries)
    {
      value := p;
      changed := false;
    }

    /** Set: split on ',', each piece on its first '=', trim both sides, and
        store into the wrapped map, which is the caller's. */
    method Set(val: string) returns (err: Option<string>)
      modifies value
      ensures SetOutcome(value.entries, err) == ApplyPieces(old(value.entries), Split(val, ','))
      ensures changed == old(changed)
    {
      var ss := Split(val, ',');
      var k := 0;
      while k < |ss|
        invariant 0 <= k <= |ss|
        invariant ApplyPieces(value.entries, ss[k..]) == ApplyPieces(old(value.entries), ss)
      {
        var parts := CutFirst(ss[k], '=');
        if parts.None? {
          return Some(ss[k] + FormatError);
        }
        var key := TrimSpace(parts.value.0);
        var out := TrimSpace(parts.value.1);
        value.entries := value.entries[key := out];
        assert ss[k..][1..] == ss[k + 1..];
        k := k + 1;
      }
      return None;
    }

    /** Type: the flag's type name, itself in key=value shape. */
    function Type(): (t: string)
      ensures CutFirst(t, '=') == Some(("string", "string"))
    {
      var t := "string=string";
      assert t == "string" + ['='] + "string";
      CutFirstOf("string", '=', "string");
      t
    }

    /** String: one key=value per entry, in the map's iteration order, joined by ','. */
    method String(order: seq<string>) returns (s: string)
      requires IsIterationOrder(order, value.entries)
      ensures s == Join(Entries(value.entries, order), ",")
      ensures |value.entries| == 0 <==> s == ""
    {
      var m := value.entries;
      var es := Entries(m, order);
      var buf := "";
      var i := 0;
      while i < |order|
        invariant 0 <= i <= |order|
        invariant buf == Terminated(es[..i])
      {
        var k := order[i];
        buf := buf + k + "=" + m[k] + ",";
        assert es[..i + 1][..i] == es[..i];
        i := i + 1;
      }
      assert es[..|order|] == es;
      if |buf| == 0 {
        s := "";
      } else {
        s := buf[..|buf| - 1];
      }
      TerminatedJoin(es);
      IterationOrderLength(order, m);
    }
  }

  lemma {:induction false} TerminatedJoin(es: seq<string>)
    ensures |es| == 0 ==> Terminated(es) == ""
    ensures |es| > 0 ==> Terminated(es) == Join(es, ",") + ","
  {
    if |es| == 1 {
      assert es[..0] == [];
    } else if |es| > 1 {
      var init := es[..|es| - 1];
      TerminatedJoin(init);
      JoinSnoc(init, es[|es| - 1]);
      assert init + [es[|es| - 1]] == es;
    }
  }

  lemma {:induction false} JoinSnoc(es: seq<string>, e: string)
    requires |es| > 0
    ensures Join(es + [e], ",") == Join(es, ",") + "," + e
  {
    if |es| > 1 {
      JoinSnoc(es[1..], e);
      assert (es + [e])[1..] == es[1..] + [e];
    }
  }

  // ---------------------------------------------------------------------
  // What Set does, piece by piece
  // ---------------------------------------------------------------------

  /** A piece is split on its FIRST '=' only: "a=b=c" writes key a, value b=c. */
  lemma SplitOnFirstEquals(m: map<string, string>, k: string, v: string)
    requires '=' !in k && IsTrimmed(k) && IsTrimmed(v)
    ensures ApplyPieces(m, [k + "=" + v]) == SetOutcome(m[k := v], None)
  {
    CutFirstOf(k, '=', v);
    assert k + "=" + v == k + ['='] + v;
    assert ApplyPieces(m[k := v], []) == SetOutcome(m[k := v], None);
  }

  /** Set reports an error exactly when some piece lacks '=', and the error
      names the first such piece. */
  lemma ErrorIffMalformed(m: map<string, string>, pieces: seq<string>)
    ensures ApplyPieces(m, pieces).err.None? <==> WellFormed(pieces)
    ensures !WellFormed(pieces) ==>
      exists j :: 0 <= j < |pieces| && '=' !in pieces[j] && WellFormed(pieces[..j])
        && ApplyPieces(m, pieces).err == Some(pieces[j] + FormatError)
  {
    NoErrorIffWellFormed(m, pieces);
    if !WellFormed(pieces) {
      FirstMalformed(m, pieces);
    }
  }

  lemma WellFormedCons(pieces: seq<string>)
    requires |pieces| > 0
    ensures WellFormed(pieces) <==> '=' in pieces[0] && WellFormed(pieces[1..])
  {
    if '=' in pieces[0] && WellFormed(pieces[1..]) {
      forall i | 0 < i < |pieces| ensures '=' in pieces[i] {
        assert pieces[i] == pieces[1..][i - 1];
      }
    }
  }

  lemma {:induction false} NoErrorIffWellFormed(m: map<string, string>, pieces: seq<string>)
    ensures ApplyPieces(m, pieces).err.None? <==> WellFormed(pieces)
    decreases |pieces|
  {
    if |pieces| > 0 {
      WellFormedCons(pieces);
      if '=' in pieces[0] {
        var kv := CutFirst(pieces[0], '=').value;
        ApplyFirstPiece(m, pieces, kv.0, kv.1);
        NoErrorIffWellFormed(m[TrimSpace(kv.0) := TrimSpace(kv.1)], pieces[1..]);
      }
    }
  }

  lemma {:induction false} FirstMalformed(m: map<string, string>, pieces: seq<string>)
    requires !WellFormed(pieces)
    ensures exists j ::
      && 0 <= j < |pieces| && '=' !in pieces[j] && WellFormed(pieces[..j])
      && ApplyPieces(m, pieces).err == Some(pieces[j] + FormatError)
    decreases |pieces|
  {
    WellFormedCons(pieces);
    if '=' in pieces[0] {
      var kv := CutFirst(pieces[0], '=').value;
      var m' := m[TrimSpace(kv.0) := TrimSpace(kv.1)];
      var rest := pieces[1..];
      ApplyFirstPiece(m, pieces, kv.0, kv.1);
      FirstMalformed(m', rest);
      var j :| 0 <= j < |rest| && '=' !in rest[j] && WellFormed(rest[..j])
        && ApplyPieces(m', rest).err == Some(rest[j] + FormatError);
      var upto := pieces[..j + 1];
      assert upto[1..] == rest[..j];
      WellFormedCons(upto);
      assert rest[j] == pieces[j + 1];
    } else {
      assert pieces[..0] == [];
    }
  }

  /** The empty flag value is one empty piece, so Set rejects it. */
  lemma EmptyInputIsError(m: map<string, string>)
    ensures Split("", ',') == [""]
    ensures ApplyPieces(m, Split("", ',')) == SetOutcome(m, Some(FormatError))
  {
    assert IndexOf("", ',') == 0;
    assert Split("", ',') == [""];
    assert '=' !in "";
    assert CutFirst("", '=') == None;
    assert "" + FormatError == FormatError;
  }

  /** No rollback: when piece j is the first malformed one, the pieces before it
      have been written. */
  lemma {:induction false} NoRollback(m: map<string, string>, pieces: seq<string>, j: nat)
    requires j < |pieces| && '=' !in pieces[j] && WellFormed(pieces[..j])
    ensures ApplyPieces(m, pieces).value == ApplyPieces(m, pieces[..j]).value
    decreases j
  {
    if j > 0 {
      var before := pieces[..j];
      assert '=' in before[0];
      var kv := CutFirst(pieces[0], '=').value;
      var m' := m[TrimSpace(kv.0) := TrimSpace(kv.1)];
      var rest := pieces[1..];
      var restBefore := rest[..j - 1];
      assert restBefore == before[1..];
      assert WellFormed(restBefore) by {
        forall i | 0 <= i < j - 1 ensures '=' in restBefore[i] {
          assert restBefore[i] == before[i + 1];
        }
      }
      NoRollback(m', rest, j - 1);
    } else {
      assert pieces[..0] == [];
    }
  }

  /** Piece i names key k and no later piece does. */
  predicate LastNaming(pieces: seq<string>, i: int, k: string)
    requires WellFormed(pieces)
  {
    0 <= i < |pieces| && PieceKey(pieces[i]) == k
    && forall j :: i < j < |pieces| ==> PieceKey(pieces[j]) != k
  }

  /** Last writer wins, and keys no piece names keep their old value: after a
      well-formed run, key k holds the value of the last piece naming k, or
      m's own entry for k when no piece names it. */
  lemma LastWriterWins(m: map<string, string>, pieces: seq<string>, k: string)
    requires WellFormed(pieces)
    ensures var r := ApplyPieces(m, pieces).value;
      && (k in r <==> (k in m || exists i :: 0 <= i < |pieces| && PieceKey(pieces[i]) == k))
      && (forall i :: LastNaming(pieces, i, k) ==> k in r && r[k] == PieceValue(pieces[i]))
      && ((forall i :: 0 <= i < |pieces| ==> PieceKey(pieces[i]) != k) ==> (k in r <==> k in m) && (k in m ==> r[k] == m[k]))
  {
    KeyPresence(m, pieces, k);
    forall i | LastNaming(pieces, i, k)
      ensures var r := ApplyPieces(m, pieces).value; k in r && r[k] == PieceValue(pieces[i])
    {
      LastNamingValue(m, pieces, k, i);
    }
    if forall i :: 0 <= i < |pieces| ==> PieceKey(pieces[i]) != k {
      Untouched(m, pieces, k);
    }
  }

  /** A well-formed first piece writes its key and value, then the rest run. */
  lemma ApplyHead(m: map<string, string>, pieces: seq<string>)
    requires WellFormed(pieces) && |pieces| > 0
    ensures WellFormed(pieces[1..])
    ensures ApplyPieces(m, pieces) == ApplyPieces(m[PieceKey(pieces[0]) := PieceValue(pieces[0])], pieces[1..])
  {
    assert '=' in pieces[0];
    forall i | 0 <= i < |pieces| - 1 ensures '=' in pieces[1..][i] { assert pieces[1..][i] == pieces[i + 1]; }
  }

  lemma {:induction false} KeyPresence(m: map<string, string>, pieces: seq<string>, k: string)
    requires WellFormed(pieces)
    ensures k in ApplyPieces(m, pieces).value <==> (k in m || exists i :: 0 <= i < |pieces| && PieceKey(pieces[i]) == k)
    decreases |pieces|
  {
    if |pieces| > 0 {
      ApplyHead(m, pieces);
      var rest := pieces[1..];
      KeyPresence(m[PieceKey(pieces[0]) := PieceValue(pieces[0])], rest, k);
      if exists i :: 0 <= i < |rest| && PieceKey(rest[i]) == k {
        var i :| 0 <= i < |rest| && PieceKey(rest[i]) == k;
        assert PieceKey(pieces[i + 1]) == k;
      }
      if exists i :: 0 <= i < |pieces| && PieceKey(pieces[i]) == k {
        var i :| 0 <= i < |pieces| && PieceKey(pieces[i]) == k;
        if i > 0 { assert PieceKey(rest[i - 1]) == k; }
      }
    }
  }

  lemma {:induction false} LastNamingValue(m: map<string, string>, pieces: seq<string>, k: string, i: int)
    requires WellFormed(pieces) && LastNaming(pieces, i, k)
    ensures var r := ApplyPieces(m, pieces).value; k in r && r[k] == PieceValue(pieces[i])
    decreases |pieces|
  {
    ApplyHead(m, pieces);
    var m' := m[PieceKey(pieces[0]) := PieceValue(pieces[0])];
    var rest := pieces[1..];
    if i > 0 {
      forall j | i - 1 < j < |rest| ensures PieceKey(rest[j]) != k { assert rest[j] == pieces[j + 1]; }
      assert LastNaming(rest, i - 1, k);
      LastNamingValue(m', rest, k, i - 1);
    } else {
      forall j | 0 <= j < |rest| ensures PieceKey(rest[j]) != k { assert rest[j] == pieces[j + 1]; }
      Untouched(m', rest, k);
    }
  }

  lemma {:induction false} Untouched(m: map<string, string>, pieces: seq<string>, k: string)
    requires WellFormed(pieces)
    requires forall i :: 0 <= i < |pieces| ==> PieceKey(pieces[i]) != k
    ensures var r := ApplyPieces(m, pieces).value; (k in r <==> k in m) && (k in m ==> r[k] == m[k])
    decreases |pieces|
  {
    if |pieces| > 0 {
      ApplyHead(m, pieces);
      var rest := pieces[1..];
      forall j | 0 <= j < |rest| ensures PieceKey(rest[j]) != k { assert rest[j] == pieces[j + 1]; }
      Untouched(m[PieceKey(pieces[0]) := PieceValue(pieces[0])], rest, k);
    }
  }

  // ---------------------------------------------------------------------
  // Round trip: String, then Set into an empty map
  // ---------------------------------------------------------------------

  /** Keys without ',' or '=', values without ',', neither with surrounding space. */
  ghost predicate Printable(m: map<string, string>)
  {
    forall k :: k in m ==> ',' !in k && '=' !in k && IsTrimmed(k) && ',' !in m[k] && IsTrimmed(m[k])
  }

  /** acc with the keys written one after the other, each with m's value. */
  function Overwrite(acc: map<string, string>, m: map<string, string>, keys: seq<string>): map<string, string>
    requires forall i :: 0 <= i < |keys| ==> keys[i] in m
    decreases |keys|
  {
    if |keys| == 0 then acc else Overwrite(acc[keys[0] := m[keys[0]]], m, keys[1..])
  }

  /** Applying the printed entries of the given keys writes exactly those
      keys, with m's values, and never fails. */
  lemma {:induction false} ApplyEntriesFrom(acc: map<string, string>, m: map<string, string>, keys: seq<string>)
    requires (forall i :: 0 <= i < |keys| ==> keys[i] in m) && Printable(m)
    ensures ApplyPieces(acc, Entries(m, keys)) == SetOutcome(Overwrite(acc, m, keys), None)
    decreases |keys|
  {
    if |keys| > 0 {
      var k := keys[0];
      var v := m[k];
      var es := Entries(m, keys);
      CutFirstOf(k, '=', v);
      assert es[0] == k + ['='] + v;
      assert TrimSpace(k) == k && TrimSpace(v) == v;
      ApplyFirstPiece(acc, es, k, v);
      assert es[1..] == Entries(m, keys[1..]);
      ApplyEntriesFrom(acc[k := v], m, keys[1..]);
    }
  }

  /** After Overwrite a key is present iff it was or is written; a written
      key holds m's value and any other keeps acc's. */
  lemma {:induction false} OverwriteAt(acc: map<string, string>, m: map<string, string>, keys: seq<string>, k: string)
    requires forall i :: 0 <= i < |keys| ==> keys[i] in m
    ensures var r := Overwrite(acc, m, keys);
      && (k in r <==> k in acc || k in keys)
      && (k in keys ==> r[k] == m[k])
      && (k !in keys && k in acc ==> r[k] == acc[k])
    decreases |keys|
  {
    if |keys| > 0 {
      var rest := keys[1..];
      OverwriteAt(acc[keys[0] := m[keys[0]]], m, rest, k);
      assert k in keys <==> k == keys[0] || k in rest;
    }
  }

  /** A first piece that cuts into a and b writes b's trim under a's trim. */
  lemma ApplyFirstPiece(m: map<string, string>, pieces: seq<string>, a: string, b: string)
    requires |pieces| > 0 && CutFirst(pieces[0], '=') == Some((a, b))
    ensures ApplyPieces(m, pieces) == ApplyPieces(m[TrimSpace(a) := TrimSpace(b)], pieces[1..])
  {
  }

  lemma EntriesHaveNoComma(m: map<string, string>, order: seq<string>)
    requires forall i :: 0 <= i < |order| ==> order[i] in m
    requires Printable(m)
    ensures forall i :: 0 <= i < |order| ==> ',' !in Entries(m, order)[i]
  {
    var es := Entries(m, order);
    forall i | 0 <= i < |es| ensures ',' !in es[i] {
      assert es[i] == order[i] + "=" + m[order[i]];
    }
  }

  /** Set(String(m)) into an empty map rebuilds m, for a non-empty printable m. */
  lemma SetAfterString(m: map<string, string>, order: seq<string>)
    requires IsIterationOrder(order, m) && Printable(m) && |m| > 0
    ensures ApplyPieces(map[], Split(Join(Entries(m, order), ","), ',')) == SetOutcome(m, None)
  {
    var es := Entries(m, order);
    IterationOrderLength(order, m);
    EntriesHaveNoComma(m, order);
    SplitJoin(es, ',');
    ApplyEntriesFrom(map[], m, order);
    OverwriteAll(m, order);
  }

  /** Writing every key of m, in an iteration order, into an empty map gives m. */
  lemma OverwriteAll(m: map<string, string>, order: seq<string>)
    requires IsIterationOrder(order, m)
    ensures Overwrite(map[], m, order) == m
  {
    forall k ensures (k in Overwrite(map[], m, order) <==> k in m)
      && (k in m ==> Overwrite(map[], m, order)[k] == m[k])
    {
      OverwriteAt(map[], m, order, k);
    }
  }
}
