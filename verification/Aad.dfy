/** The associated-data grammar: one string per record and one per key wrap. */
module Aad {
  import opened Wrappers
  import opened Records

  datatype InvalidComponent = InvalidComponent

  // The server's copy joins its arguments without looking at them.
  function BuildAad(user: UserId, typeName: string, id: RecordId): string {
    "v1|" + user + "|" + typeName + "|" + id
  }

  predicate BarFree(s: string) { '|' !in s }

  // The client's copy refuses an empty part or one that holds a bar.
  function BuildAadString(user: UserId, kind: Kind, id: RecordId): Result<string, InvalidComponent> {
    if user == "" || id == "" || !BarFree(user) || !BarFree(id) then Err(InvalidComponent)
    else Ok(BuildAad(user, KindName(kind), id))
  }

  datatype WrapKind = WrappedDek | WrappedDekRecovery

  function WrapName(kind: WrapKind): string {
    match kind
    case WrappedDek => "wrapped-dek"
    case WrappedDekRecovery => "wrapped-dek-recovery"
  }

  function WrapAad(user: UserId, kind: WrapKind): string {
    "v1|" + user + "|" + WrapName(kind)
  }

  /******* Bars split a string in one way *******/

  lemma {:induction false} FirstBarSplits(a: string, x: string, b: string, y: string)
    requires BarFree(a) && BarFree(b)
    requires a + "|" + x == b + "|" + y
    ensures a == b && x == y
    decreases a
  {
    var s, t := a + "|" + x, b + "|" + y;
    assert s[0] == t[0];
    if a == "" {
      assert b == "";
      assert s[1..] == x && t[1..] == y;
    } else {
      assert b != "";
      assert s[1..] == a[1..] + "|" + x && t[1..] == b[1..] + "|" + y;
      FirstBarSplits(a[1..], x, b[1..], y);
      assert a == [a[0]] + a[1..] && b == [b[0]] + b[1..];
    }
  }

  lemma {:induction false} LastBarSplits(x: string, a: string, y: string, b: string)
    requires BarFree(a) && BarFree(b)
    requires x + "|" + a == y + "|" + b
    ensures a == b && x == y
    decreases a
  {
    var s, t := x + "|" + a, y + "|" + b;
    var n := |s| - 1;
    assert s[n] == t[n];
    if a == "" {
      assert b == "";
      assert s[..n] == x && t[..n] == y;
    } else {
      assert b != "";
      assert s[..n] == x + "|" + a[..|a| - 1] && t[..n] == y + "|" + b[..|b| - 1];
      LastBarSplits(x, a[..|a| - 1], y, b[..|b| - 1]);
      assert a == a[..|a| - 1] + [a[|a| - 1]] && b == b[..|b| - 1] + [b[|b| - 1]];
    }
  }

  lemma KindNamesAreBarFree(kind: Kind)
    ensures BarFree(KindName(kind))
  {
  }

  lemma KindNamesDiffer(a: Kind, b: Kind)
    requires KindName(a) == KindName(b)
    ensures a == b
  {
  }

  /******* The grammar is unambiguous *******/

  lemma AadIsInjective(u: UserId, k: Kind, id: RecordId, u': UserId, k': Kind, id': RecordId)
    requires BarFree(u) && BarFree(id) && BarFree(u') && BarFree(id')
    requires BuildAad(u, KindName(k), id) == BuildAad(u', KindName(k'), id')
    ensures u == u' && k == k' && id == id'
  {
    var tail, tail' := KindName(k) + "|" + id, KindName(k') + "|" + id';
    assert BuildAad(u, KindName(k), id)[3..] == u + "|" + tail;
    assert BuildAad(u', KindName(k'), id')[3..] == u' + "|" + tail';
    FirstBarSplits(u, tail, u', tail');
    KindNamesAreBarFree(k);
    KindNamesAreBarFree(k');
    FirstBarSplits(KindName(k), id, KindName(k'), id');
    KindNamesDiffer(k, k');
  }

  // A record string is a wrap string only for a wrap user that contains the bar.
  lemma RecordAadIsWrapAadIff(u: UserId, k: Kind, id: RecordId, w: UserId, wrap: WrapKind)
    requires BarFree(id)
    ensures BuildAad(u, KindName(k), id) == WrapAad(w, wrap)
            <==> w == u + "|" + KindName(k) && id == WrapName(wrap)
  {
    var head := u + "|" + KindName(k);
    assert BuildAad(u, KindName(k), id) == "v1|" + (head + "|" + id);
    assert WrapAad(w, wrap) == "v1|" + (w + "|" + WrapName(wrap));
    assert BuildAad(u, KindName(k), id)[3..] == head + "|" + id;
    assert WrapAad(w, wrap)[3..] == w + "|" + WrapName(wrap);
    if BuildAad(u, KindName(k), id) == WrapAad(w, wrap) {
      LastBarSplits(head, id, w, WrapName(wrap));
    }
  }

  lemma RecordAadIsNeverWrapAad(u: UserId, k: Kind, id: RecordId, w: UserId, wrap: WrapKind)
    requires BarFree(id) && BarFree(w)
    ensures BuildAad(u, KindName(k), id) != WrapAad(w, wrap)
  {
    RecordAadIsWrapAadIff(u, k, id, w, wrap);
    assert (u + "|" + KindName(k))[|u|] == '|';
  }

  // The two wrap kinds never collide, whatever the users; and one kind is injective.
  lemma WrapAadsAreDistinct(u: UserId, kind: WrapKind, w: UserId, kind': WrapKind)
    ensures WrapAad(u, kind) == WrapAad(w, kind') <==> u == w && kind == kind'
  {
    assert WrapAad(u, kind) == "v1|" + (u + "|" + WrapName(kind));
    assert WrapAad(w, kind') == "v1|" + (w + "|" + WrapName(kind'));
    assert WrapAad(u, kind)[3..] == u + "|" + WrapName(kind);
    assert WrapAad(w, kind')[3..] == w + "|" + WrapName(kind');
    if WrapAad(u, kind) == WrapAad(w, kind') {
      LastBarSplits(u, WrapName(kind), w, WrapName(kind'));
      assert |WrapName(kind)| == |WrapName(kind')|;
    }
  }
}
