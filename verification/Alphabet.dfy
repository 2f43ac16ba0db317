/**
 The letters that words are made of.
 */
module Alphabet {
  const LETTERS := "abcdefghijklmnopqrstuvwxyz-"
  const LENGTH: nat := 27
  const NPOS: nat := 0xffff_ffff_ffff_ffff

  // `strchr` finds the terminating NUL as well, one position behind the last letter.
  function GetCharacterIndex(ch: char): nat {
    if 'a' <= ch <= 'z' then (ch - 'a') as nat
    else if ch == '-' then 26
    else if ch == '\0' then LENGTH
    else NPOS
  }

  // The array ends with its NUL, and that is what the position behind the letters holds.
  function GetCharacter(index: nat): char
    requires index <= LENGTH
  {
    if index < LENGTH then LETTERS[index] else '\0'
  }

  // A character that the lookup finds: a letter or the NUL.
  predicate Found(ch: char) { ch in LETTERS || ch == '\0' }

  predicate AllFound(word: string) { forall i :: 0 <= i < |word| ==> Found(word[i]) }

  predicate Spelled(word: string) { forall i :: 0 <= i < |word| ==> word[i] in LETTERS }

  lemma LetterAt(i: nat)
    requires i < LENGTH
    ensures LETTERS[i] == if i < 26 then 'a' + i as char else '-'
  {
  }

  // Exactly the letters and the NUL have an index, and the index gives the character back.
  lemma IndexOfLetter(ch: char)
    ensures GetCharacterIndex(ch) < LENGTH <==> ch in LETTERS
    ensures GetCharacterIndex(ch) == LENGTH <==> ch == '\0'
    ensures GetCharacterIndex(ch) == NPOS <==> !Found(ch)
    ensures Found(ch) ==> GetCharacter(GetCharacterIndex(ch)) == ch
  {
    if ch in LETTERS {
      var i :| 0 <= i < LENGTH && LETTERS[i] == ch;
      LetterAt(i);
    }
    if 'a' <= ch <= 'z' || ch == '-' { LetterAt(GetCharacterIndex(ch)); }
  }

  // Characters with the same index are the same.
  lemma LetterOfIndex(a: char, b: char)
    requires Found(a) && GetCharacterIndex(a) == GetCharacterIndex(b)
    ensures a == b
  {
    IndexOfLetter(a);
    IndexOfLetter(b);
  }
}
