/** Result and option types, and the string helpers the repository's code leans on. */
module Base {

  datatype Option<T> = None | Some(value: T)

  datatype Result<T, E> = Ok(value: T) | Err(error: E)

  /** `mapping.get(key, default)` */
  function GetOr<K, V>(m: map<K, V>, k: K, default: V): (r: V) {
    if k in m then m[k] else default
  }

  /** The ASCII characters that `strip` removes. */
  predicate IsSpace(c: char) {
    9 <= c as int <= 13 || 28 <= c as int <= 32
  }

  function DropLeadingSpace(s: string): (r: string) {
    if s != "" && IsSpace(s[0]) then DropLeadingSpace(s[1..]) else s
  }

  function DropTrailingSpace(s: string): (r: string) {
    if s != "" && IsSpace(s[|s| - 1]) then DropTrailingSpace(s[..|s| - 1]) else s
  }

  /** `text.strip()` over ASCII white space */
  function Strip(s: string): (r: string) {
    DropTrailingSpace(DropLeadingSpace(s))
  }

  function UpperChar(c: char): (r: char) {
    if 'a' <= c <= 'z' then (c as int - 32) as char else c
  }

  /** `text.upper()` over ASCII letters */
  function Upper(s: string): (r: string) {
    seq(|s|, i requires 0 <= i < |s| => UpperChar(s[i]))
  }

  // ----- What these are

  /** Space, tabulators, line and page breaks, and the four separators. */
  predicate AllBlank(s: string) {
    forall i :: 0 <= i < |s| ==> 9 <= s[i] as int <= 13 || 28 <= s[i] as int <= 32
  }

  /** Stripping takes white space off both ends, and all of it. */
  lemma StripMeans(s: string)
    ensures exists i, j :: 0 <= i <= j <= |s| && Strip(s) == s[i..j] && AllBlank(s[..i]) && AllBlank(s[j..])
    ensures Strip(s) != "" ==> !AllBlank(Strip(s)[..1]) && !AllBlank(Strip(s)[|Strip(s)| - 1..])
  {
    hide AllBlank, IsSpace;
    var rest, whole := DropLeadingSpace(s), Strip(s);
    LeadingDropped(s);
    TrailingDropped(rest);
    var i := |s| - |rest|;
    assert s[i..i + |whole|] == whole;
    assert s[i + |whole|..] == rest[|whole|..];
    if whole != "" {
      assert whole[0] == rest[0];
      assert whole[..1] == [whole[0]] && whole[|whole| - 1..] == [whole[|whole| - 1]];
      OneBlank(whole[0]);
      OneBlank(whole[|whole| - 1]);
    }
  }

  lemma {:induction false} LeadingDropped(s: string)
    ensures var r := DropLeadingSpace(s);
            && |r| <= |s| && s[|s| - |r|..] == r && AllBlank(s[..|s| - |r|]) && (r != "" ==> !IsSpace(r[0]))
  {
    hide AllBlank, IsSpace;
    BlankJoined("", "");
    if s != "" && IsSpace(s[0]) {
      LeadingDropped(s[1..]);
      var n := |s| - |DropLeadingSpace(s)|;
      assert s[..n] == [s[0]] + s[1..][..n - 1];
      OneBlank(s[0]);
      BlankJoined([s[0]], s[1..][..n - 1]);
    }
  }

  lemma {:induction false} TrailingDropped(s: string)
    ensures var r := DropTrailingSpace(s);
            && |r| <= |s| && s[..|r|] == r && AllBlank(s[|r|..]) && (r != "" ==> !IsSpace(r[|r| - 1]))
  {
    hide AllBlank, IsSpace;
    BlankJoined("", "");
    if s != "" && IsSpace(s[|s| - 1]) {
      var before, n := s[..|s| - 1], |DropTrailingSpace(s)|;
      TrailingDropped(before);
      assert s[n..] == before[n..] + [s[|s| - 1]];
      OneBlank(s[|s| - 1]);
      BlankJoined(before[n..], [s[|s| - 1]]);
    } else {
      assert s[|s|..] == "";
    }
  }

  lemma OneBlank(c: char)
    ensures AllBlank([c]) <==> IsSpace(c)
  {
    if AllBlank([c]) {
      assert [c][0] == c;
    }
  }

  lemma BlankJoined(s: string, t: string)
    ensures AllBlank("")
    ensures AllBlank(s) && AllBlank(t) ==> AllBlank(s + t)
  {
  }

  lemma StrippedTwice(s: string)
    ensures Strip(Strip(s)) == Strip(s)
  {
    StripMeans(s);
    if Strip(s) != "" {
      hide Strip, AllBlank;
      EndsAreKept(Strip(s));
    }
  }

  lemma EndsAreKept(s: string)
    requires s != "" && !AllBlank(s[..1]) && !AllBlank(s[|s| - 1..])
    ensures Strip(s) == s
  {
    hide AllBlank, IsSpace;
    OneBlank(s[0]);
    OneBlank(s[|s| - 1]);
    assert s[..1] == [s[0]] && s[|s| - 1..] == [s[|s| - 1]];
  }

  /** Only lower-case letters change, and each into its capital. */
  lemma UpperMeans(s: string)
    ensures |Upper(s)| == |s|
    ensures forall i :: 0 <= i < |s| ==>
              Upper(s)[i] as int == if 97 <= s[i] as int <= 122 then s[i] as int - 32 else s[i] as int
  {
  }
}
