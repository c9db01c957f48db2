/** The field constraints on a create request: the title must be non-blank
    and 3 to 15 characters long, the content must be non-blank, and the
    status is not constrained. Absent fields are `None`. Update requests are
    not validated. */
module TicketValidation {
  import opened Tickets

  datatype TicketRequest = TicketRequest(title: Option<string>, content: Option<string>, status: Option<Status>)

  /** The constraint violations a request can raise, one per message. */
  datatype Violation = TitleBlank | TitleLength | ContentBlank

  /** Characters that trimming drops: every code at or below the space. */
  predicate IsTrimmed(c: char) {
    c <= ' '
  }

  /** `s` without its leading trimmed characters. */
  function TrimStart(s: string): (r: string)
    ensures |r| <= |s| && r == s[|s| - |r|..]
    ensures forall i :: 0 <= i < |s| - |r| ==> IsTrimmed(s[i])
    ensures r == [] || !IsTrimmed(r[0])
  {
    if s != [] && IsTrimmed(s[0]) then
      var r := TrimStart(s[1..]);
      assert s[1..][|s| - 1 - |r|..] == s[|s| - |r|..];
      r
    else s
  }

  /** `s` without its trailing trimmed characters. */
  function TrimEnd(s: string): (r: string)
    ensures |r| <= |s| && r == s[..|r|]
    ensures forall i :: |r| <= i < |s| ==> IsTrimmed(s[i])
    ensures r == [] || !IsTrimmed(r[|r| - 1])
  {
    if s != [] && IsTrimmed(s[|s| - 1]) then
      var r := TrimEnd(s[..|s| - 1]);
      assert s[..|s| - 1][..|r|] == s[..|r|];
      r
    else s
  }

  /** `r` is the slice `s[i..j]`, and everything of `s` outside it is
      dropped by trimming. */
  ghost predicate TrimmedSlice(s: string, r: string, i: int, j: int) {
    && 0 <= i <= j <= |s| && r == s[i..j]
    && (forall k :: 0 <= k < i ==> IsTrimmed(s[k]))
    && (forall k :: j <= k < |s| ==> IsTrimmed(s[k]))
  }

  /** String trimming: both ends lose their characters at or below the space. */
  function Trim(s: string): (r: string)
    ensures exists i, j :: TrimmedSlice(s, r, i, j)
    ensures r == [] || (!IsTrimmed(r[0]) && !IsTrimmed(r[|r| - 1]))
  {
    var t := TrimStart(s);
    TrimBothEnds(s, t, TrimEnd(t));
    TrimEnd(t)
  }

  /** A suffix `t` of `s` that drops only trimmed characters, cut down to a
      prefix `r` that drops only trimmed characters, is a slice of `s` that
      drops only trimmed characters on either side. */
  lemma TrimBothEnds(s: string, t: string, r: string)
    requires |t| <= |s| && t == s[|s| - |t|..] && forall k :: 0 <= k < |s| - |t| ==> IsTrimmed(s[k])
    requires |r| <= |t| && r == t[..|r|] && forall k :: |r| <= k < |t| ==> IsTrimmed(t[k])
    ensures TrimmedSlice(s, r, |s| - |t|, |s| - |t| + |r|)
  {
    var i := |s| - |t|;
    assert r == s[i..i + |r|];
    forall k | i + |r| <= k < |s| ensures IsTrimmed(s[k]) {
      assert s[k] == t[k - i];
    }
  }

  /** A present value that is not empty once trimmed. */
  predicate NotBlank(v: Option<string>) {
    v.Some? && |Trim(v.value)| > 0
  }

  /** An absent value, or one whose length lies in `[min, max]`. */
  predicate LengthBetween(v: Option<string>, min: nat, max: nat) {
    v.None? || min <= |v.value| <= max
  }

  /** Every constraint the request breaks. */
  function Violations(t: TicketRequest): (r: set<Violation>)
    ensures TitleBlank in r <==> !NotBlank(t.title)
    ensures TitleLength in r <==> t.title.Some? && (|t.title.value| < 3 || |t.title.value| > 15)
    ensures ContentBlank in r <==> !NotBlank(t.content)
  {
    (if NotBlank(t.title) then {} else {TitleBlank})
    + (if LengthBetween(t.title, 3, 15) then {} else {TitleLength})
    + (if NotBlank(t.content) then {} else {ContentBlank})
  }

  /** The request passes validation. */
  predicate ValidRequest(t: TicketRequest) {
    Violations(t) == {}
  }

  /** A value is blank exactly when it is absent or every character in it is
      dropped by trimming. */
  lemma BlankIffAllTrimmed(v: Option<string>)
    ensures !NotBlank(v) <==> v.None? || forall i :: 0 <= i < |v.value| ==> IsTrimmed(v.value[i])
  {
    if v.Some? {
      var s := v.value;
      var i, j :| TrimmedSlice(s, Trim(s), i, j);
      if |Trim(s)| > 0 {
        assert s[i] == Trim(s)[0];
      }
    }
  }

  /** A request is valid exactly when its title is present, 3 to 15
      characters long and has a character above the space, and its content
      is present and has a character above the space. */
  lemma ValidIff(t: TicketRequest)
    ensures ValidRequest(t) <==>
      && t.title.Some? && 3 <= |t.title.value| <= 15
      && (exists i :: 0 <= i < |t.title.value| && !IsTrimmed(t.title.value[i]))
      && t.content.Some? && (exists i :: 0 <= i < |t.content.value| && !IsTrimmed(t.content.value[i]))
  {
    BlankIffAllTrimmed(t.title);
    BlankIffAllTrimmed(t.content);
    if ValidRequest(t) {
      assert Violations(t) == {};
      assert TitleBlank !in Violations(t) && TitleLength !in Violations(t) && ContentBlank !in Violations(t);
    } else {
      var v :| v in Violations(t);
    }
  }

  /** The accepted request: title "First", content "First", status toDo. */
  lemma FirstIsValid()
    ensures ValidRequest(TicketRequest(Some("First"), Some("First"), Some(ToDo)))
  {
    ValidIff(TicketRequest(Some("First"), Some("First"), Some(ToDo)));
    assert !IsTrimmed("First"[0]);
  }

  /** The rejected requests: empty title and content, and absent title with
      empty content. */
  lemma IncompleteIsInvalid()
    ensures Violations(TicketRequest(Some(""), Some(""), Some(ToTest))) == {TitleBlank, TitleLength, ContentBlank}
    ensures Violations(TicketRequest(None, Some(""), Some(ToDo))) == {TitleBlank, ContentBlank}
  {
    assert Trim("") == [];
    assert !NotBlank(Some("")) && !NotBlank(None);
    assert |""| == 0 && !LengthBetween(Some(""), 3, 15) && LengthBetween(None, 3, 15);
  }
}
