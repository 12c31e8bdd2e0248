/** Error values of the decoder and the renderer, and the Result wrapper
    used wherever the Go code returns `(value, error)`. */
module Errors {

  datatype Error =
    // tmx_map.go
    | ErrInvalidTileGID
    // tmx_layer.go
    | ErrInvalidDecodedTileCount
    | ErrEmptyLayerData
    | ErrUnknownEncoding
    // tmx_data.go
    | ErrUnknownCompression
    // strconv: a malformed or out-of-range number
    | ErrSyntax
    | ErrRange
    // tmx_object.go
    | ErrInvalidObjectPoint
    // tmx_hexcolor.go ("Invalid Format")
    | ErrInvalidFormat
    // tmx_tileset.go ("no tilesetTile matches the given Id")
    | ErrNoTilesetTile
    // render/renderer.go
    | ErrUnsupportedOrientation
    | ErrUnsupportedRenderOrder
    | ErrOutOfBounds
    // an error reported by a collaborator outside the model (file system, codecs)
    | External(message: string)
    // a Go runtime panic (nil dereference, index out of range, division by zero)
    | Panic(reason: string)

  datatype Result<+T> = Ok(value: T) | Err(error: Error) {
    predicate IsFailure() { Err? }

    function PropagateFailure<U>(): Result<U>
      requires Err?
    {
      Err(error)
    }

    function Extract(): T
      requires Ok?
    {
      value
    }
  }

  datatype Option<+T> = None | Some(value: T)
}
