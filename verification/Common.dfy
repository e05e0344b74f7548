/** An optional value. */
module Wrappers {
  datatype Option<T> = None | Some(value: T)
}

/** size_t is 64 bits wide. */
module SizeT {
  const SIZE_MOD: nat := 0x1_0000_0000_0000_0000
}

/** The return codes of the SDK that the model uses. */
module ReturnCodes {
  datatype Rc =
    | SUCCESS | FAILURE
    | NETWORK_PHYSICAL_LAYER_DISCONNECTED | NETWORK_MANUALLY_DISCONNECTED
    | NETWORK_ATTEMPTING_RECONNECT | NETWORK_RECONNECTED
    | NETWORK_SSL_READ_ERROR | NETWORK_SSL_READ_TIMEOUT_ERROR | NETWORK_SSL_NOTHING_TO_READ
    | NETWORK_DISCONNECTED_ERROR | NETWORK_RECONNECT_TIMED_OUT_ERROR | NETWORK_ALREADY_CONNECTED_ERROR
    | TLS_CONNECT_ERROR
    | MQTT_REQUEST_TIMEOUT_ERROR | MQTT_UNEXPECTED_CLIENT_STATE_ERROR | MQTT_CLIENT_NOT_IDLE_ERROR
    | MQTT_RX_MESSAGE_PACKET_TYPE_INVALID_ERROR | MQTT_RX_BUFFER_TOO_SHORT_ERROR
    | MQTT_TX_BUFFER_TOO_SHORT_ERROR | MQTT_DECODE_REMAINING_LENGTH_ERROR | MQTT_NOTHING_TO_READ
    | MQTT_MAX_SUBSCRIPTIONS_REACHED_ERROR | MQTT_CONNACK_ERROR
}
