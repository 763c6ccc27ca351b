/**
 * `useCookie`: the hook reads its initial value out of the document's cookie
 * string, whose rows are separated by "; " (the cookie-string form of section
 * 5.4 of RFC 6265), and `updateCookie` writes a Set-Cookie style string
 * `key=value; expires=<date>; path=/` (section 4.1.1 of RFC 6265) and updates
 * the hook's mirror of the value.
 */
module Cookie {
  import opened Optional
  import opened Strings

  /** The separator between rows of `document.cookie`. */
  const RowSeparator := "; "

  /** `updateCookie`'s default expiry, in days. */
  const DefaultDaysToExpire := 7

  /** No row separator "; " starts anywhere in `s`. */
  predicate FreeOfSeparator(s: string)
  {
    forall i :: 0 <= i < |s| - 1 ==> !(s[i] == ';' && s[i + 1] == ' ')
  }

  /**
   * `rows.find(row => row.startsWith(prefix))`, as the index of the row found.
   */
  function FindFirst(rows: seq<string>, prefix: string): (r: Option<nat>)
    ensures r.None? <==> forall j :: 0 <= j < |rows| ==> !StartsWith(rows[j], prefix)
    ensures r.Some? ==> r.value < |rows| && StartsWith(rows[r.value], prefix)
    ensures r.Some? ==> forall j :: 0 <= j < r.value ==> !StartsWith(rows[j], prefix)
  {
    if rows == [] then None
    else if StartsWith(rows[0], prefix) then Some(0)
    else match FindFirst(rows[1..], prefix)
      case None => None
      case Some(k) => Some(k + 1)
  }

  /**
   * `r` is the text after the '=' at `p` up to the next '=' or the end of
   * `row`.
   */
  ghost predicate ValueAfterEquals(row: string, p: int, r: string)
  {
    0 <= p < |row| && StartsWith(row[p + 1..], r) && '=' !in r &&
    (p + 1 + |r| == |row| || row[p + 1 + |r|] == '=')
  }

  /**
   * `row.split('=')[1]` for a row that starts with `key=`. When the key holds
   * no '=', it is the text after `key=` up to the next '=' or the end of the
   * row; `RowValueForAnyKey` states it for every key.
   */
  function RowValue(row: string, key: string): (r: string)
    requires StartsWith(row, key + "=")
    ensures '=' !in key ==> ValueAfterEquals(row, |key|, r)
  {
    assert row[..|key| + 1] == key + "=";
    assert row[|key|..][..1] == "=";
    SplitAtOccurrence(row, "=", |key|);
    if '=' in key then Split(row, "=")[1]
    else
      assert row[..|key|] == key;
      SecondPieceAfterFirstEquals(row, |key|);
      Split(row, "=")[1]
  }

  /**
   * For any key, '=' inside it included, the value is the text between the
   * row's first '=' (at `p`) and the next '=' or the end of the row.
   */
  lemma RowValueForAnyKey(row: string, key: string, p: nat)
    requires StartsWith(row, key + "=")
    requires p < |row| && row[p] == '=' && '=' !in row[..p]
    ensures ValueAfterEquals(row, p, RowValue(row, key))
  {
    SecondPieceAfterFirstEquals(row, p);
  }

  /** Split on '=', the second piece of a row runs from its first '=' to the next. */
  lemma SecondPieceAfterFirstEquals(row: string, p: nat)
    requires p < |row| && row[p] == '=' && '=' !in row[..p]
    ensures |Split(row, "=")| >= 2 && ValueAfterEquals(row, p, Split(row, "=")[1])
  {
    var a, rest := row[..p], row[p + 1..];
    assert row == a + "=" + rest;
    EqualsFree(a, rest);
    SplitAfterPiece(a, "=", rest);
    var v := Split(rest, "=")[0];
    assert '=' !in v by {
      forall i | 0 <= i < |v| ensures v[i] != '=' {
        assert !StartsWith(rest[i..], "=");
        assert rest[i..][..1] == [rest[i]];
      }
    }
    assert |v| < |rest| ==> rest[|v|] == '=' by {
      if |v| < |rest| { assert rest[|v|..][..1] == [rest[|v|]]; }
    }
  }

  /** The value the hook starts with: the first matching row's value, or `initialValue`. */
  function Lookup(jar: string, key: string, initialValue: string): (r: string)
    ensures (forall j :: 0 <= j < |Split(jar, RowSeparator)| ==>
               !StartsWith(Split(jar, RowSeparator)[j], key + "=")) ==> r == initialValue
  {
    var rows := Split(jar, RowSeparator);
    match FindFirst(rows, key + "=")
    case None => initialValue
    case Some(i) => RowValue(rows[i], key)
  }

  /** The string `updateCookie` assigns to `document.cookie`. */
  function SetCookieString(key: string, value: string, expires: string): (r: string)
    ensures StartsWith(r, key + "=" + value + RowSeparator + "expires=")
    ensures r[|r| - 8..] == RowSeparator + "path=/"
  {
    key + "=" + value + RowSeparator + "expires=" + expires + RowSeparator + "path=/"
  }

  lemma EqualsFree(a: string, b: string)
    requires '=' !in a
    ensures forall i :: 0 <= i < |a| ==> !StartsWith((a + "=" + b)[i..], "=")
  {
    forall i | 0 <= i < |a| ensures !StartsWith((a + "=" + b)[i..], "=") {
      assert (a + "=" + b)[i..][..1] == [a[i]];
    }
  }

  lemma SeparatorFree(a: string, b: string)
    requires FreeOfSeparator(a)
    ensures forall i :: 0 <= i < |a| ==> !StartsWith((a + RowSeparator + b)[i..], RowSeparator)
  {
    forall i | 0 <= i < |a| ensures !StartsWith((a + RowSeparator + b)[i..], RowSeparator) {
      var s := a + RowSeparator + b;
      if i < |a| - 1 {
        assert s[i..][..2] == [a[i], a[i + 1]];
      } else {
        assert s[i..][..2] == [a[i], ';'];
      }
    }
  }

  /**
   * Of several rows that start with `key=`, the first in string order wins;
   * rows before it are for other keys.
   */
  lemma LookupFirstMatch(jar: string, key: string, initialValue: string, i: nat)
    requires i < |Split(jar, RowSeparator)|
    requires StartsWith(Split(jar, RowSeparator)[i], key + "=")
    requires forall j :: 0 <= j < i ==> !StartsWith(Split(jar, RowSeparator)[j], key + "=")
    ensures Lookup(jar, key, initialValue) == RowValue(Split(jar, RowSeparator)[i], key)
  {
  }


  /** The value stops at a second '=': `key=a=b` yields `a`. */
  lemma ValueTruncatedAtEquals(key: string, value: string, tail: string)
    requires '=' !in key && '=' !in value
    ensures RowValue(key + "=" + value + "=" + tail, key) == value
  {
    var row := key + "=" + value + "=" + tail;
    assert row[|key| + 1..] == value + "=" + tail;
    var r := RowValue(row, key);
    PrefixFreeUpToEquals(value + "=" + tail, r, value);
  }

  /** Without a second '=', the value is the rest of the row, possibly empty. */
  lemma ValueIsRestOfRow(key: string, value: string)
    requires '=' !in key && '=' !in value
    ensures RowValue(key + "=" + value, key) == value
  {
  }

  /** Two '='-free prefixes of `s`, each ending at '=' or the end of `s`, are the same. */
  lemma PrefixFreeUpToEquals(s: string, r: string, v: string)
    requires StartsWith(s, r) && '=' !in r && (|r| == |s| || s[|r|] == '=')
    requires StartsWith(s, v) && '=' !in v && (|v| == |s| || s[|v|] == '=')
    ensures r == v
  {
  }

  /** A row `key=` with nothing after it yields "", not `initialValue`. */
  lemma EmptyValueIsKept(key: string, rest: string, initialValue: string)
    requires '=' !in key && FreeOfSeparator(key)
    ensures Lookup(key + "=" + RowSeparator + rest, key, initialValue) == ""
  {
    var row := key + "=";
    assert FreeOfSeparator(row);
    SeparatorFree(row, rest);
    SplitAfterPiece(row, RowSeparator, rest);
    assert key + "=" + RowSeparator + rest == row + RowSeparator + rest;
    LookupFirstMatch(key + "=" + RowSeparator + rest, key, initialValue, 0);
    ValueIsRestOfRow(key, "");
    assert key + "=" + "" == row;
  }

  /** A jar that is the single row `key=` also yields "", not `initialValue`. */
  lemma EmptyOnlyRowIsKept(key: string, initialValue: string)
    requires '=' !in key && FreeOfSeparator(key)
    ensures Lookup(key + "=", key, initialValue) == ""
  {
    var row := key + "=";
    assert FreeOfSeparator(row);
    SeparatorFreeAlone(row);
    SplitWithoutSeparator(row, RowSeparator);
    LookupFirstMatch(row, key, initialValue, 0);
    ValueIsRestOfRow(key, "");
    assert key + "=" + "" == row;
  }

  lemma SeparatorFreeAlone(a: string)
    requires FreeOfSeparator(a)
    ensures forall i :: 0 <= i < |a| ==> !StartsWith(a[i..], RowSeparator)
  {
    forall i | 0 <= i < |a| ensures !StartsWith(a[i..], RowSeparator) {
      if i < |a| - 1 {
        assert a[i..][..2] == [a[i], a[i + 1]];
      }
    }
  }

  /**
   * Round trip for any jar: when the first row for `key` is `key=value`, the
   * lookup gives back `value`.
   */
  lemma FirstRowForKeyReadBack(jar: string, key: string, value: string, initialValue: string, i: nat)
    requires '=' !in key && '=' !in value
    requires i < |Split(jar, RowSeparator)| && Split(jar, RowSeparator)[i] == key + "=" + value
    requires forall j :: 0 <= j < i ==> !StartsWith(Split(jar, RowSeparator)[j], key + "=")
    ensures Lookup(jar, key, initialValue) == value
  {
  }

  lemma RowFreeOfSeparator(key: string, value: string)
    requires FreeOfSeparator(key) && FreeOfSeparator(value)
    ensures FreeOfSeparator(key + "=" + value)
  {
  }

  /** A row for a longer key sharing the prefix, such as `keyX=1`, does not match `key`. */
  lemma LongerKeyNotMatched(key: string, c: char, rest: string)
    requires c != '='
    ensures !StartsWith(key + [c] + rest, key + "=")
  {
    assert (key + [c] + rest)[|key|] == c;
    assert (key + "=")[|key|] == '=';
  }

  /**
   * Round trip: looking `key` up in the string `updateCookie` writes gives back
   * the value written, whatever the expiry and the initial value.
   */
  lemma WrittenCookieReadBack(key: string, value: string, expires: string, initialValue: string)
    requires '=' !in key && '=' !in value
    requires FreeOfSeparator(key) && FreeOfSeparator(value)
    ensures Lookup(SetCookieString(key, value, expires), key, initialValue) == value
  {
    var row := key + "=" + value;
    var tail := "expires=" + expires + RowSeparator + "path=/";
    var jar := SetCookieString(key, value, expires);
    assert jar == row + RowSeparator + tail;
    RowFreeOfSeparator(key, value);
    SeparatorFree(row, tail);
    SplitAfterPiece(row, RowSeparator, tail);
    var rows := Split(jar, RowSeparator);
    assert rows[0] == row;
    assert StartsWith(row, key + "=");
    LookupFirstMatch(jar, key, initialValue, 0);
    ValueIsRestOfRow(key, value);
  }

  /** The hook: `document.cookie` as the `jar` port and the hook's own state `cookie`. */
  class CookieHook {
    const key: string
    var jar: string
    var cookie: string

    /** The `useState` initializer: look the key up in the current jar. */
    constructor (jar: string, key: string, initialValue: string)
      ensures this.key == key && this.jar == jar
      ensures cookie == Lookup(jar, key, initialValue)
    {
      this.key := key;
      this.jar := jar;
      cookie := Lookup(jar, key, initialValue);
    }

    /**
     * `updateCookie(value, daysToExpire)`. The date arithmetic and its UTC
     * formatting are the port `utcDateAfterDays`, which maps a number of days
     * from now to the `toUTCString()` of that date.
     */
    method UpdateCookie(value: string, daysToExpire: int, utcDateAfterDays: int -> string)
      modifies this
      ensures jar == SetCookieString(key, value, utcDateAfterDays(daysToExpire))
      ensures cookie == value
      ensures ('=' !in key && '=' !in value && FreeOfSeparator(key) && FreeOfSeparator(value))
                ==> Lookup(jar, key, old(cookie)) == cookie
    {
      jar := SetCookieString(key, value, utcDateAfterDays(daysToExpire));
      cookie := value;
      if '=' !in key && '=' !in value && FreeOfSeparator(key) && FreeOfSeparator(value) {
        WrittenCookieReadBack(key, value, utcDateAfterDays(daysToExpire), old(cookie));
      }
    }

    /** `updateCookie(value)` with the default expiry of seven days. */
    method UpdateCookieDefault(value: string, utcDateAfterDays: int -> string)
      modifies this
      ensures jar == SetCookieString(key, value, utcDateAfterDays(DefaultDaysToExpire))
      ensures cookie == value
    {
      UpdateCookie(value, DefaultDaysToExpire, utcDateAfterDays);
    }
  }
}
