/** The data shapes of the launcher: src/types.ts, the flags record produced
    by the command-line parser, and the JavaScript `Error` values that flow
    from the enumerators to the controller. */
module Types {

  /** The `type` tag of a device choice. */
  datatype DeviceType = Android | Ios

  /** `DeviceOption.value`: what the prompt hands back when a device is picked. */
  datatype DeviceValue = DeviceValue(id: string, deviceType: DeviceType)

  /** `DeviceOption`: a label shown in the menu and the value behind it. */
  datatype DeviceOption = DeviceOption(name: string, value: DeviceValue)

  /** The boolean flags the command-line parser reports; `-a` and `--android`
      arrive as two distinct fields, and so do `-i` and `--ios`. */
  datatype CliFlags = CliFlags(a: bool, android: bool, i: bool, ios: bool)

  /** A thrown JavaScript error: its `name` (`Error`, `TypeError`, ...) and
      its `message`. `JsError` is an error built with `new Error(..)`;
      `NodeError` is one of Node's own internal errors, which also carry a
      `code` such as `ERR_INVALID_ARG_TYPE` and render it in their text. */
  datatype JsError =
    | JsError(name: string, message: string)
    | NodeError(name: string, code: string, message: string)
  {
    /** `Error.prototype.toString` for a `JsError`: the message alone when
        the name is empty, the name alone when the message is empty,
        otherwise `name + ": " + message`. A `NodeError` overrides it with
        `name + " [" + code + "]: " + message`. */
    function ToString(): (text: string)
      ensures text == "" <==> JsError? && name == "" && message == ""
      ensures JsError? && name == "" ==> text == message
      ensures name != "" ==> |name| <= |text| && text[..|name|] == name
      ensures message != "" ==> |message| <= |text| && text[|text| - |message|..] == message
      ensures JsError? && name != "" && message == "" ==> text == name
      ensures JsError? && name != "" && message != "" ==>
        |text| == |name| + |message| + 2 && text[|name|..|name| + 2] == ": "
      ensures NodeError? ==>
        |text| == |name| + |code| + |message| + 5 && text[|name|..|name| + 2] == " [" &&
        text[|name| + 2..|name| + 2 + |code|] == code && text[|name| + 2 + |code|..|name| + 5 + |code|] == "]: "
    {
      match this
      case JsError(name, message) =>
        if name == "" then message
        else if message == "" then name
        else name + ": " + message
      case NodeError(name, code, message) =>
        name + " [" + code + "]: " + message
    }
  }
}
