/** The profile page's avatar text: the user's initials. */
module UserProfile {
  import opened Models
  import opened Text

  /** `s.charAt(0)`: the first character, or the empty string. */
  function CharAt0(s: string): (r: string)
    ensures |r| <= 1
    ensures s != "" ==> r == [s[0]]
  {
    if s == "" then "" else [s[0]]
  }

  /** `getUserInitials()`: '?' without a display name; otherwise the first
      letters of the first and the last space-separated piece (just the
      first when there is one piece), upper-cased. */
  function GetUserInitials(user: Option<User>): (r: string)
    ensures |r| <= 2
    ensures !(user.Some? && Truthy(user.value.displayName)) ==> r == "?"
  {
    if user.None? || !Truthy(user.value.displayName) then "?"
    else
      var names := SplitSpace(user.value.displayName.value);
      if |names| == 1 then ToUpper(CharAt0(names[0]))
      else ToUpper(CharAt0(names[0]) + CharAt0(names[|names| - 1]))
  }

  /** A name without spaces gives its first character, upper-cased. */
  lemma InitialsOfOneWord(user: Option<User>)
    requires user.Some? && Truthy(user.value.displayName) && NoSpace(user.value.displayName.value)
    ensures GetUserInitials(user) == [UpperChar(user.value.displayName.value[0])]
  {
    var name := user.value.displayName.value;
    SplitSingleIffNoSpace(name);
    SplitFirst(name);
    assert FirstWord(name) == name;
  }

  /** A name with a space gives the first character before the first space
      and the first character after the last space, upper-cased. */
  lemma InitialsOfSeveralWords(user: Option<User>)
    requires user.Some? && Truthy(user.value.displayName) && !NoSpace(user.value.displayName.value)
    ensures var name := user.value.displayName.value;
            GetUserInitials(user) == ToUpper(CharAt0(FirstWord(name)) + CharAt0(LastWord(name)))
  {
    var name := user.value.displayName.value;
    var names := SplitSpace(name);
    assert |names| != 1 by {
      SplitSingleIffNoSpace(name);
    }
    assert names[0] == FirstWord(name) by {
      SplitFirst(name);
    }
    assert names[|names| - 1] == LastWord(name) by {
      SplitLast(name);
    }
  }

  /** A name that starts with a space has no first initial: the first piece
      is empty, so only the last piece contributes. */
  lemma InitialsOfLeadingSpace(user: Option<User>)
    requires user.Some? && Truthy(user.value.displayName) && user.value.displayName.value[0] == ' '
    ensures var name := user.value.displayName.value;
            GetUserInitials(user) == ToUpper(CharAt0(LastWord(name)))
  {
    var name := user.value.displayName.value;
    assert !NoSpace(name);
    InitialsOfSeveralWords(user);
    assert FirstWord(name) == "";
    assert CharAt0(FirstWord(name)) + CharAt0(LastWord(name)) == CharAt0(LastWord(name));
  }
}
