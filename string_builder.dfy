/** `System.Text.StringBuilder`, as far as the SQL builders use it: a text
    that grows by appends and loses a suffix by `Remove`. */
module TextBuilder {
  class StringBuilder {
    var text: string

    constructor()
      ensures text == ""
    {
      text := "";
    }

    function Length(): nat
      reads this
    {
      |text|
    }

    /** `ToString()`. */
    function ToText(): string
      reads this
    {
      text
    }

    /** `Append(s)` and `AppendFormat` with its arguments already filled in. */
    method Append(s: string)
      modifies this
      ensures text == old(text) + s
    {
      text := text + s;
    }

    /** `Remove(start, length)`: drops `length` characters at `start`. */
    method Remove(start: nat, length: nat)
      requires start + length <= |text|
      modifies this
      ensures text == old(text)[..start] + old(text)[start + length..]
    {
      text := text[..start] + text[start + length..];
    }
  }
}
