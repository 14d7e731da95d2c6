/**
 * The two labels the layout's header computes: the unread badge on the bell
 * and the avatar initials of the signed-in user.
 */
module HeaderLabels {
  import opened Wrappers

  /** The numeric value of a decimal digit character. */
  function DigitValue(c: char): int {
    c as int - '0' as int
  }

  /** The badge over the bell: absent at 0, `"9+"` above 9, otherwise the
      count written as one decimal digit. */
  function BadgeLabel(unreadCount: nat): (badge: Option<string>)
    ensures badge.None? <==> unreadCount == 0
    ensures badge == Some("9+") <==> unreadCount > 9
    ensures 0 < unreadCount <= 9 ==>
              badge.Some? && |badge.value| == 1 && DigitValue(badge.value[0]) == unreadCount
  {
    if unreadCount == 0 then None
    else if unreadCount > 9 then Some("9+")
    else Some([('0' as int + unreadCount) as char])
  }

  /** `s.split(' ')`: the pieces between single spaces; two adjacent spaces,
      or a space at either end, give an empty piece. */
  function Split(s: string): (parts: seq<string>)
    ensures |parts| >= 1
    ensures forall p :: p in parts ==> ' ' !in p
  {
    if s == [] then [""]
    else
      var rest := Split(s[1..]);
      if s[0] == ' ' then [""] + rest
      else
        assert rest[0] in rest;
        [[s[0]] + rest[0]] + rest[1..]
  }

  /** `parts.join(' ')`. */
  function Join(parts: seq<string>): string
    requires |parts| >= 1
  {
    if |parts| == 1 then parts[0] else parts[0] + " " + Join(parts[1..])
  }

  /** Prepending a character to the first piece prepends it to the joined string. */
  lemma {:induction false} JoinConsFirst(c: char, parts: seq<string>)
    requires |parts| >= 1
    ensures Join([[c] + parts[0]] + parts[1..]) == [c] + Join(parts)
  {
    var ps := [[c] + parts[0]] + parts[1..];
    if |parts| > 1 {
      assert ps[1..] == parts[1..];
    }
  }

  /** Splitting on spaces and joining with spaces gives back the name. */
  lemma {:induction false} JoinSplit(s: string)
    ensures Join(Split(s)) == s
  {
    if s != [] {
      JoinSplit(s[1..]);
      var rest := Split(s[1..]);
      if s[0] == ' ' {
        assert ([""] + rest)[1..] == rest;
      } else {
        JoinConsFirst(s[0], rest);
      }
      assert s == [s[0]] + s[1..];
    }
  }

  /** `parts.map(n => n[0]).join('')`: the first character of each piece;
      an empty piece yields `undefined`, which `join` writes as nothing. */
  function FirstChars(parts: seq<string>): string {
    if parts == [] then ""
    else (if parts[0] == "" then "" else [parts[0][0]]) + FirstChars(parts[1..])
  }

  /** Reference definition of the initials, read left to right: a character
      is kept when it is not a space and it starts a word, that is, it opens
      the name (`atStart`) or follows a space. */
  function WordStarts(s: string, atStart: bool): string {
    if s == [] then ""
    else (if atStart && s[0] != ' ' then [s[0]] else []) + WordStarts(s[1..], s[0] == ' ')
  }

  lemma {:induction false} FirstCharsOfSplit(s: string)
    ensures FirstChars(Split(s)) == WordStarts(s, true)
    ensures FirstChars(Split(s)[1..]) == WordStarts(s, false)
  {
    if s != [] {
      FirstCharsOfSplit(s[1..]);
      var rest := Split(s[1..]);
      if s[0] == ' ' {
        assert Split(s) == [""] + rest;
        assert Split(s)[1..] == rest;
      } else {
        var ps := [[s[0]] + rest[0]] + rest[1..];
        assert Split(s) == ps;
        assert ps[1..] == rest[1..];
        if rest[0] == "" {
          assert FirstChars(rest) == FirstChars(rest[1..]);
        } else {
          assert FirstChars(rest) == [rest[0][0]] + FirstChars(rest[1..]);
        }
      }
    }
  }

  /** Every character of the reference initials is a non-space character of the name. */
  lemma {:induction false} WordStartsAreNonSpace(s: string, atStart: bool)
    ensures forall c :: c in WordStarts(s, atStart) ==> c != ' ' && c in s
  {
    if s != [] {
      WordStartsAreNonSpace(s[1..], s[0] == ' ');
      assert forall c :: c in s[1..] ==> c in s;
    }
  }

  /** The avatar text: `full_name ? full_name.split(' ').map(n => n[0]).join('') : 'U'`. */
  function Initials(fullName: string): (r: string)
    ensures fullName == "" ==> r == "U"
    ensures fullName != "" ==> r == WordStarts(fullName, true)
    ensures fullName != "" ==> forall c :: c in r ==> c != ' ' && c in fullName
  {
    if fullName == "" then "U"
    else
      FirstCharsOfSplit(fullName);
      WordStartsAreNonSpace(fullName, true);
      FirstChars(Split(fullName))
  }

  /** Two words give their two first letters, however many spaces part them. */
  lemma InitialsOfTwoWords()
    ensures Initials("Al Bo") == "AB"
    ensures Initials("Al  Bo") == "AB"
  {
    var bo := WordStarts("Bo", true);
    assert bo == "B";
    assert WordStarts(" Bo", false) == bo;
    assert WordStarts("  Bo", false) == bo;
    assert WordStarts("Al Bo", true) == "A" + WordStarts("l Bo", false);
    assert WordStarts("Al  Bo", true) == "A" + WordStarts("l  Bo", false);
  }

  /** The fallback `'U'` applies only to an empty name: a name made of a
      single space yields empty initials. */
  lemma InitialsOfBlankNames()
    ensures Initials("") == "U"
    ensures Initials(" ") == ""
  {
    assert WordStarts(" ", true) == "" + WordStarts("", true);
  }
}
